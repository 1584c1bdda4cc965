/**
 * The rows of models.py that address deallocation and tagging touch, the
 * constraints their tables declare, and the session that holds them.
 *
 * A session is modelled as an in-memory store of tables keyed by primary
 * key. A deallocation is modelled together with the flush that follows it:
 * either both its writes take effect, or a constraint rejects the flush and
 * the enclosing transaction leaves every table as it was.
 */
module Models {
  import opened Wrappers
  import opened Naming
  import Inet
  import MacCodec

  /** A primary key. New keys (`uuid4()`) are supplied by the caller, fresh for their table. */
  type Uuid = nat

  /** An `Ip` row: an allocated address of a subnet (its tag column lives in `tagColumns`). */
  datatype Ip = Ip(subnetUuid: Uuid, portUuid: Option<Uuid>, address: Inet.IpAddress, tenantId: string)

  /** An `AllocatableIp` row: a released address kept for its subnet. */
  datatype AllocatableIp = AllocatableIp(subnetUuid: Uuid, address: Inet.IpAddress, available: bool)

  /** A `MacPool` row. */
  datatype MacPool = MacPool(networkUuid: Option<Uuid>, address: MacCodec.U48, prefix: int)

  /** A `Mac` row: an allocated MAC address of a pool. */
  datatype Mac = Mac(networkUuid: Option<Uuid>, poolUuid: Uuid, portUuid: Uuid, address: MacCodec.U48)

  /** An `AllocatableMac` row: a released MAC address. */
  datatype AllocatableMac = AllocatableMac(networkUuid: Option<Uuid>, address: MacCodec.U48, available: bool)

  /** The taggable classes (those with the `IsHazTags` mixin). */
  datatype TaggableKind = RouteKind | SubnetKind | IpKind | PortKind | NetworkKind

  function ClassName(k: TaggableKind): string {
    match k
    case RouteKind => "Route"
    case SubnetKind => "Subnet"
    case IpKind => "Ip"
    case PortKind => "Port"
    case NetworkKind => "Network"
  }

  /** A taggable row: its class and its primary key. */
  datatype EntityRef = EntityRef(kind: TaggableKind, uuid: Uuid)

  /** A `Tag` row of an association. */
  datatype Tag = Tag(tag: string)

  /** A `TagAssociation` row with its `tags_association` collection, in list order. */
  datatype TagAssociation = TagAssociation(discriminator: string, tagRows: seq<Tag>)

  /** Every table of the session the model covers. */
  datatype Tables = Tables(
    ips: map<Uuid, Ip>,
    allocatableIps: map<Uuid, AllocatableIp>,
    macPools: map<Uuid, MacPool>,
    macs: map<Uuid, Mac>,
    allocatableMacs: map<Uuid, AllocatableMac>,
    tagColumns: map<EntityRef, Option<Uuid>>,   // `tag_association_uuid` of every taggable row
    associations: map<Uuid, TagAssociation>)

  datatype StoreError =
    | NoSession        // the row is in no session (`object_session` gave None), as after commit
    | IntegrityError   // the flush violates a unique or NOT NULL constraint
    | AddressFormatError  // a column's bind could not read the value as an address (netaddr's AddrFormatError)

  /** What an operation returns, and the tables after it. */
  datatype Outcome<R> = Outcome(result: Result<R, StoreError>, after: Tables)

  // ---------------------------------------------------------------------
  // Unique constraints. Address columns are compared in their stored form.

  /** `UniqueConstraint("address", "subnet_uuid")` on the Ip table. */
  predicate UniqueIps(t: map<Uuid, Ip>) {
    forall a, b :: a in t && b in t && a != b ==>
      (Inet.ToStored(t[a].address), t[a].subnetUuid) != (Inet.ToStored(t[b].address), t[b].subnetUuid)
  }

  /** `UniqueConstraint("address", "subnet_uuid")` on the AllocatableIp table. */
  predicate UniqueAllocatableIps(t: map<Uuid, AllocatableIp>) {
    forall a, b :: a in t && b in t && a != b ==>
      (Inet.ToStored(t[a].address), t[a].subnetUuid) != (Inet.ToStored(t[b].address), t[b].subnetUuid)
  }

  /**
   * `UniqueConstraint("address", "network_uuid")` on the Mac table. In SQL a
   * NULL is distinct from every value, so rows with a null network never
   * conflict.
   */
  predicate UniqueMacs(t: map<Uuid, Mac>) {
    forall a, b :: a in t && b in t && a != b && t[a].networkUuid.Some? ==>
      (t[a].address, t[a].networkUuid) != (t[b].address, t[b].networkUuid)
  }

  /** `UniqueConstraint("address", "network_uuid")` on the AllocatableMac table, NULLs as in SQL. */
  predicate UniqueAllocatableMacs(t: map<Uuid, AllocatableMac>) {
    forall a, b :: a in t && b in t && a != b && t[a].networkUuid.Some? ==>
      (t[a].address, t[a].networkUuid) != (t[b].address, t[b].networkUuid)
  }

  /** A reservation row that the AllocatableIp constraint would not admit beside the others. */
  predicate IpReservationConflicts(t: map<Uuid, AllocatableIp>, row: AllocatableIp) {
    exists a :: a in t && (Inet.ToStored(t[a].address), t[a].subnetUuid) == (Inet.ToStored(row.address), row.subnetUuid)
  }

  /** A reservation row that the AllocatableMac constraint would not admit beside the others. */
  predicate MacReservationConflicts(t: map<Uuid, AllocatableMac>, row: AllocatableMac) {
    row.networkUuid.Some? &&
    exists a :: a in t && (t[a].address, t[a].networkUuid) == (row.address, row.networkUuid)
  }

  /** The discriminator an association of this class carries. */
  function DiscriminatorOf(k: TaggableKind): string {
    Discriminator(ClassName(k))
  }

  /** The four unique constraints. */
  predicate UniqueRows(t: Tables) {
    UniqueIps(t.ips) && UniqueAllocatableIps(t.allocatableIps) &&
    UniqueMacs(t.macs) && UniqueAllocatableMacs(t.allocatableMacs)
  }

  /** The `pool_uuid` foreign key of the Mac table. */
  predicate PoolsResolve(t: Tables) {
    forall id :: id in t.macs ==> t.macs[id].poolUuid in t.macPools
  }

  /** Every Ip row has its `tag_association_uuid` column, and only Ip rows have Ip columns. */
  predicate IpsHaveTagColumns(t: Tables) {
    && (forall id :: id in t.ips ==> EntityRef(IpKind, id) in t.tagColumns)
    && (forall e :: e in t.tagColumns && e.kind == IpKind ==> e.uuid in t.ips)
  }

  /**
   * The `tag_association_uuid` foreign key, and, as every association is
   * created for one row, each association held by at most one row, whose
   * class its discriminator names.
   */
  predicate AssociationsHeld(t: Tables) {
    && (forall e :: e in t.tagColumns && t.tagColumns[e].Some? ==>
          t.tagColumns[e].value in t.associations &&
          t.associations[t.tagColumns[e].value].discriminator == DiscriminatorOf(e.kind))
    && (forall e, e' ::
          (e in t.tagColumns && e' in t.tagColumns && t.tagColumns[e].Some? && t.tagColumns[e] == t.tagColumns[e'])
          ==> e == e')
  }

  /** What the database and the session keep true of the tables. */
  predicate Consistent(t: Tables) {
    UniqueRows(t) && PoolsResolve(t) && IpsHaveTagColumns(t) && AssociationsHeld(t)
  }

  // ---------------------------------------------------------------------
  // Ip.deallocate and Mac.deallocate

  /**
   * `Ip.deallocate`: add an `AllocatableIp` with the Ip's subnet and address
   * (`available` takes its default, false), delete the Ip, return the
   * reservation. An Ip that is not in the session has no session to add to;
   * a reservation already holding that (address, subnet) makes the flush fail.
   */
  function IpDeallocation(t: Tables, ipUuid: Uuid, newUuid: Uuid): (o: Outcome<AllocatableIp>)
    ensures ipUuid !in t.ips ==> o == Outcome(Err(NoSession), t)
    ensures ipUuid in t.ips ==>
              var row := AllocatableIp(t.ips[ipUuid].subnetUuid, t.ips[ipUuid].address, false);
              (o.result.Err? <==> IpReservationConflicts(t.allocatableIps, row)) &&
              (o.result.Err? ==> o == Outcome(Err(IntegrityError), t)) &&
              (o.result.Ok? ==>
                 (o.result.value == row &&
                  o.after == t.(ips := t.ips - {ipUuid},
                                allocatableIps := t.allocatableIps[newUuid := row],
                                tagColumns := t.tagColumns - {EntityRef(IpKind, ipUuid)})))
  {
    if ipUuid !in t.ips then Outcome(Err(NoSession), t)
    else
      var ip := t.ips[ipUuid];
      var row := AllocatableIp(ip.subnetUuid, ip.address, false);
      if IpReservationConflicts(t.allocatableIps, row) then Outcome(Err(IntegrityError), t)
      else Outcome(Ok(row), t.(ips := t.ips - {ipUuid},
                               allocatableIps := t.allocatableIps[newUuid := row],
                               tagColumns := t.tagColumns - {EntityRef(IpKind, ipUuid)}))
  }

  /**
   * `Mac.deallocate`, as intended: add an `AllocatableMac` with the Mac's
   * address and, when the Mac's pool has a network, that network (null
   * otherwise), delete the Mac, return the reservation. The reservation's
   * address column keeps the 48-bit MAC value; MacDeallocationAsWritten is
   * the flush as the INET column carries it out.
   */
  function MacDeallocation(t: Tables, macUuid: Uuid, newUuid: Uuid): (o: Outcome<AllocatableMac>)
    requires PoolsResolve(t)
    ensures macUuid !in t.macs ==> o == Outcome(Err(NoSession), t)
    ensures macUuid in t.macs ==>
              var mac := t.macs[macUuid];
              var row := AllocatableMac(t.macPools[mac.poolUuid].networkUuid, mac.address, false);
              (o.result.Err? <==> MacReservationConflicts(t.allocatableMacs, row)) &&
              (o.result.Err? ==> o == Outcome(Err(IntegrityError), t)) &&
              (o.result.Ok? ==>
                 (o.result.value == row &&
                  o.after == t.(macs := t.macs - {macUuid}, allocatableMacs := t.allocatableMacs[newUuid := row])))
  {
    if macUuid !in t.macs then Outcome(Err(NoSession), t)
    else
      var mac := t.macs[macUuid];
      var pool := t.macPools[mac.poolUuid];
      var network := if pool.networkUuid.Some? then pool.networkUuid else None;
      var row := AllocatableMac(network, mac.address, false);
      if MacReservationConflicts(t.allocatableMacs, row) then Outcome(Err(IntegrityError), t)
      else Outcome(Ok(row), t.(macs := t.macs - {macUuid}, allocatableMacs := t.allocatableMacs[newUuid := row]))
  }

  lemma RemoveOneKey<K, V>(m: map<K, V>, k: K)
    requires k in m
    ensures |m - {k}| == |m| - 1
  {
    assert (m - {k}).Keys == m.Keys - {k};
  }

  /**
   * The conflict test is exactly what the AllocatableIp constraint decides:
   * a new row under a fresh key keeps the table unique if and only if no row
   * holds its (address, subnet).
   */
  lemma AddIpReservation(m: map<Uuid, AllocatableIp>, k: Uuid, row: AllocatableIp)
    requires UniqueAllocatableIps(m) && k !in m
    ensures UniqueAllocatableIps(m[k := row]) <==> !IpReservationConflicts(m, row)
  {
    if !IpReservationConflicts(m, row) {
      var m' := m[k := row];
      forall a, b | a in m' && b in m' && a != b
        ensures (Inet.ToStored(m'[a].address), m'[a].subnetUuid) != (Inet.ToStored(m'[b].address), m'[b].subnetUuid)
      {
        if a == k {
          assert b in m;
        } else if b == k {
          assert a in m;
        }
      }
    } else {
      var a :| a in m && (Inet.ToStored(m[a].address), m[a].subnetUuid) == (Inet.ToStored(row.address), row.subnetUuid);
      var m' := m[k := row];
      assert a in m' && k in m' && a != k;
      assert (Inet.ToStored(m'[a].address), m'[a].subnetUuid) == (Inet.ToStored(m'[k].address), m'[k].subnetUuid);
    }
  }

  /**
   * The same for the AllocatableMac constraint, where a row without a network
   * never conflicts.
   */
  lemma AddMacReservation(m: map<Uuid, AllocatableMac>, k: Uuid, row: AllocatableMac)
    requires UniqueAllocatableMacs(m) && k !in m
    ensures UniqueAllocatableMacs(m[k := row]) <==> !MacReservationConflicts(m, row)
  {
    var m' := m[k := row];
    if !MacReservationConflicts(m, row) {
      forall a, b | a in m' && b in m' && a != b && m'[a].networkUuid.Some?
        ensures (m'[a].address, m'[a].networkUuid) != (m'[b].address, m'[b].networkUuid)
      {
        if a == k {
          assert b in m;
        } else if b == k {
          assert a in m;
        }
      }
    } else {
      var a :| a in m && (m[a].address, m[a].networkUuid) == (row.address, row.networkUuid);
      assert a in m' && a != k && m'[k].networkUuid.Some?;
    }
  }

  /**
   * A successful Ip deallocation keeps every constraint, removes exactly one
   * Ip and adds exactly one reservation, and touches no other table.
   */
  lemma IpDeallocationPreserves(t: Tables, ipUuid: Uuid, newUuid: Uuid)
    requires Consistent(t)
    requires newUuid !in t.allocatableIps
    ensures Consistent(IpDeallocation(t, ipUuid, newUuid).after)
    ensures var o := IpDeallocation(t, ipUuid, newUuid);
            o.result.Ok? ==>
              |o.after.ips| == |t.ips| - 1 &&
              |o.after.allocatableIps| == |t.allocatableIps| + 1 &&
              o.after.macPools == t.macPools && o.after.macs == t.macs &&
              o.after.allocatableMacs == t.allocatableMacs && o.after.associations == t.associations
  {
    var o := IpDeallocation(t, ipUuid, newUuid);
    if o.result.Ok? {
      RemoveOneKey(t.ips, ipUuid);
      var after := o.after;
      var row := o.result.value;
      AddIpReservation(t.allocatableIps, newUuid, row);
      forall e, e' | e in after.tagColumns && e' in after.tagColumns && after.tagColumns[e].Some? &&
          after.tagColumns[e] == after.tagColumns[e']
        ensures e == e'
      {
        assert e in t.tagColumns && e' in t.tagColumns;
      }
    }
  }

  /** A Mac deallocation keeps every constraint and moves exactly one row. */
  lemma MacDeallocationPreserves(t: Tables, macUuid: Uuid, newUuid: Uuid)
    requires Consistent(t)
    requires newUuid !in t.allocatableMacs
    ensures Consistent(MacDeallocation(t, macUuid, newUuid).after)
    ensures var o := MacDeallocation(t, macUuid, newUuid);
            o.result.Ok? ==>
              |o.after.macs| == |t.macs| - 1 &&
              |o.after.allocatableMacs| == |t.allocatableMacs| + 1 &&
              o.after.ips == t.ips && o.after.allocatableIps == t.allocatableIps &&
              o.after.tagColumns == t.tagColumns && o.after.associations == t.associations &&
              o.after.macPools == t.macPools
  {
    var o := MacDeallocation(t, macUuid, newUuid);
    if o.result.Ok? {
      RemoveOneKey(t.macs, macUuid);
      var after := o.after;
      var row := o.result.value;
      AddMacReservation(t.allocatableMacs, newUuid, row);
    }
  }

  /**
   * Deallocating the same Ip again after the transaction is committed: the
   * deleted row is detached, so the second call finds no session.
   */
  lemma DeallocateIpTwice(t: Tables, ipUuid: Uuid, newUuid: Uuid, newUuid': Uuid)
    requires IpDeallocation(t, ipUuid, newUuid).result.Ok?
    ensures IpDeallocation(IpDeallocation(t, ipUuid, newUuid).after, ipUuid, newUuid').result == Err(NoSession)
  {
  }

  /**
   * Deallocating the same Ip again inside the same transaction: the deleted
   * row still has its session, so the second call adds the same reservation,
   * under a new key, beside the one the first call flushed. That pair of
   * rows breaks the AllocatableIp constraint, so the flush refuses it.
   */
  lemma DeallocateIpTwiceInTransaction(t: Tables, ipUuid: Uuid, newUuid: Uuid, newUuid': Uuid)
    requires IpDeallocation(t, ipUuid, newUuid).result.Ok?
    requires newUuid' !in IpDeallocation(t, ipUuid, newUuid).after.allocatableIps
    ensures var o := IpDeallocation(t, ipUuid, newUuid);
            IpReservationConflicts(o.after.allocatableIps, o.result.value) &&
            !UniqueAllocatableIps(o.after.allocatableIps[newUuid' := o.result.value])
  {
    var o := IpDeallocation(t, ipUuid, newUuid);
    var m := o.after.allocatableIps;
    assert newUuid in m && m[newUuid] == o.result.value;
    var m' := m[newUuid' := o.result.value];
    assert newUuid in m' && newUuid' in m' && newUuid != newUuid' && m'[newUuid] == m'[newUuid'];
  }

  /**
   * The Ip constraint compares stored forms: an Ip holding an IPv4 address
   * cannot be deallocated into a subnet that already reserves the same
   * address written as IPv4-mapped IPv6.
   */
  lemma MappedReservationConflicts(t: Tables, ipUuid: Uuid, resUuid: Uuid, newUuid: Uuid, v: Inet.U32)
    requires ipUuid in t.ips && t.ips[ipUuid].address == Inet.V4(v)
    requires resUuid in t.allocatableIps
    requires t.allocatableIps[resUuid].subnetUuid == t.ips[ipUuid].subnetUuid
    requires t.allocatableIps[resUuid].address == Inet.V6(Inet.MapToV6(v))
    ensures IpDeallocation(t, ipUuid, newUuid) == Outcome(Err(IntegrityError), t)
  {
    var row := AllocatableIp(t.ips[ipUuid].subnetUuid, t.ips[ipUuid].address, false);
    assert (Inet.ToStored(t.allocatableIps[resUuid].address), t.allocatableIps[resUuid].subnetUuid)
        == (Inet.ToStored(row.address), row.subnetUuid);
  }

  /**
   * `Mac.deallocate` followed by the flush, as written. The reservation's
   * `address` column has the INET type, whose bind hands a value that is not
   * an `IPAddress` to `netaddr.IPAddress`. A Mac's address is an `EUI` (what
   * the MAC column loads), which that constructor does not read as an IP
   * address, so the flush fails and the transaction leaves every table as it
   * was.
   */
  function MacDeallocationAsWritten(t: Tables, macUuid: Uuid, newUuid: Uuid): (o: Outcome<AllocatableMac>)
    ensures o.after == t
    ensures macUuid !in t.macs ==> o.result == Err(NoSession)
    ensures macUuid in t.macs ==> o.result == Err(AddressFormatError)
  {
    if macUuid !in t.macs then Outcome(Err(NoSession), t)
    else Outcome(Err(AddressFormatError), t)
  }

  /**
   * Every Mac deallocation fails as written, even one the intended write
   * always carries out: a Mac whose pool has no network, which the intended
   * write moves into a reservation with a NULL network.
   */
  lemma MacDeallocationFailsAsWritten(t: Tables, macUuid: Uuid, newUuid: Uuid)
    requires Consistent(t) && newUuid !in t.allocatableMacs
    requires macUuid in t.macs && t.macPools[t.macs[macUuid].poolUuid].networkUuid.None?
    ensures MacDeallocationAsWritten(t, macUuid, newUuid) == Outcome(Err(AddressFormatError), t)
    ensures var o := MacDeallocation(t, macUuid, newUuid);
            o.result == Ok(AllocatableMac(None, t.macs[macUuid].address, false)) &&
            |o.after.macs| == |t.macs| - 1 && Consistent(o.after)
  {
    UnscopedMacAlwaysDeallocates(t, macUuid, newUuid);
    MacDeallocationPreserves(t, macUuid, newUuid);
  }

  /**
   * A Mac whose pool has no network is always deallocated by the intended write: its reservation
   * has a null network, which the constraint never compares, so the table may
   * then hold two reservations with the same address and no network.
   */
  lemma UnscopedMacAlwaysDeallocates(t: Tables, macUuid: Uuid, newUuid: Uuid)
    requires Consistent(t)
    requires macUuid in t.macs && t.macPools[t.macs[macUuid].poolUuid].networkUuid.None?
    ensures MacDeallocation(t, macUuid, newUuid).result == Ok(AllocatableMac(None, t.macs[macUuid].address, false))
  {
  }

  // ---------------------------------------------------------------------
  // Tagging

  /** The text of every tag row: the `tags` proxy of an association. */
  function TagTexts(rows: seq<Tag>): (r: seq<string>)
    ensures |r| == |rows|
    ensures forall i :: 0 <= i < |rows| ==> r[i] == rows[i].tag
  {
    seq(|rows|, i requires 0 <= i < |rows| => rows[i].tag)
  }

  /** One `Tag(tag=t)` per string, the proxy's creator. */
  function TagRows(tags: seq<string>): (r: seq<Tag>)
    ensures TagTexts(r) == tags
  {
    seq(|tags|, i requires 0 <= i < |tags| => Tag(tags[i]))
  }

  /**
   * Reading `entity.tags`: the association's tag texts in list order, or the
   * empty list when the row has no association yet.
   */
  function TagsOf(t: Tables, e: EntityRef): (r: seq<string>)
    requires AssociationsHeld(t) && e in t.tagColumns
    ensures t.tagColumns[e].None? ==> r == []
    ensures t.tagColumns[e].Some? ==> r == TagTexts(t.associations[t.tagColumns[e].value].tagRows)
  {
    match t.tagColumns[e]
    case None => []
    case Some(a) => TagTexts(t.associations[a].tagRows)
  }

  /**
   * Writing `entity.tags = tags`: a row without an association gets a new one
   * (the creator sets the discriminator to the lower-cased class name);
   * otherwise its association's tag rows are replaced, the removed Tag rows
   * leaving the session. This is the intended write, which the session uses;
   * TagsSetAsWritten is the write as the ORM carries it out.
   */
  function TagsSet(t: Tables, e: EntityRef, tags: seq<string>, newUuid: Uuid): (t': Tables)
    requires AssociationsHeld(t) && e in t.tagColumns
    requires newUuid !in t.associations
    ensures t'.ips == t.ips && t'.allocatableIps == t.allocatableIps && t'.macPools == t.macPools &&
            t'.macs == t.macs && t'.allocatableMacs == t.allocatableMacs
    ensures t'.tagColumns.Keys == t.tagColumns.Keys
    ensures t.tagColumns[e].None? ==>
              t'.tagColumns == t.tagColumns[e := Some(newUuid)] &&
              t'.associations == t.associations[newUuid := TagAssociation(DiscriminatorOf(e.kind), TagRows(tags))]
    ensures t.tagColumns[e].Some? ==>
              var a := t.tagColumns[e].value;
              t'.tagColumns == t.tagColumns &&
              t'.associations == t.associations[a := t.associations[a].(tagRows := TagRows(tags))]
  {
    match t.tagColumns[e]
    case None =>
      t.(tagColumns := t.tagColumns[e := Some(newUuid)],
         associations := t.associations[newUuid := TagAssociation(DiscriminatorOf(e.kind), TagRows(tags))])
    case Some(a) =>
      t.(associations := t.associations[a := t.associations[a].(tagRows := TagRows(tags))])
  }

  /**
   * Writing `entity.tags` as the ORM carries it out. Replacing the tags of an
   * existing association clears its `tags_association` list, and the flush
   * then sets the `association_uuid` of every removed Tag row to NULL, which
   * that non-nullable column rejects. Writing to an untagged row, or to an
   * association that has no Tag rows yet, goes through as TagsSet.
   */
  function TagsSetAsWritten(t: Tables, e: EntityRef, tags: seq<string>, newUuid: Uuid): (o: Outcome<()>)
    requires AssociationsHeld(t) && e in t.tagColumns
    requires newUuid !in t.associations
    ensures o.result.Err? <==> TagsOf(t, e) != []
    ensures o.result.Err? ==> o == Outcome(Err(IntegrityError), t)
    ensures o.result.Ok? ==> o.after == TagsSet(t, e, tags, newUuid)
  {
    match t.tagColumns[e]
    case Some(a) =>
      if |t.associations[a].tagRows| > 0 then Outcome(Err(IntegrityError), t)
      else Outcome(Ok(()), TagsSet(t, e, tags, newUuid))
    case None => Outcome(Ok(()), TagsSet(t, e, tags, newUuid))
  }

  /**
   * Retagging a row that already has tags fails as written, and leaves every
   * table unchanged, where the intended write (TagsSet) replaces the tags.
   */
  lemma RetaggingFailsAsWritten(t: Tables, e: EntityRef, tags: seq<string>, newUuid: Uuid)
    requires Consistent(t) && e in t.tagColumns
    requires newUuid !in t.associations
    requires TagsOf(t, e) != []
    ensures TagsSetAsWritten(t, e, tags, newUuid) == Outcome(Err(IntegrityError), t)
    ensures TagsOf(t, e) != tags ==> TagsOf(TagsSetAsWritten(t, e, tags, newUuid).after, e) != tags
    ensures Consistent(TagsSet(t, e, tags, newUuid)) && TagsOf(TagsSet(t, e, tags, newUuid), e) == tags
  {
    TagsSetThenRead(t, e, tags, newUuid);
  }

  /** Where no Tag row is removed, the write as written and the intended write agree. */
  lemma FirstWriteAsWritten(t: Tables, e: EntityRef, tags: seq<string>, newUuid: Uuid)
    requires Consistent(t) && e in t.tagColumns
    requires newUuid !in t.associations
    requires TagsOf(t, e) == []
    ensures TagsSetAsWritten(t, e, tags, newUuid) == Outcome(Ok(()), TagsSet(t, e, tags, newUuid))
  {
  }

  /** The back-references `<discriminator>_parent` that the taggable classes declare, and their classes. */
  function Backrefs(): map<string, TaggableKind> {
    map[DiscriminatorOf(RouteKind) + "_parent" := RouteKind,
        DiscriminatorOf(SubnetKind) + "_parent" := SubnetKind,
        DiscriminatorOf(IpKind) + "_parent" := IpKind,
        DiscriminatorOf(PortKind) + "_parent" := PortKind,
        DiscriminatorOf(NetworkKind) + "_parent" := NetworkKind]
  }

  datatype TagError = UnknownDiscriminator(discriminator: string)

  /** The rows of a class that hold an association. */
  function Holders(t: Tables, a: Uuid, k: TaggableKind): set<EntityRef> {
    set e | e in t.tagColumns && e.kind == k && t.tagColumns[e] == Some(a)
  }

  /**
   * `TagAssociation.parent`: the attribute `<discriminator>_parent`, the
   * single-valued back-reference of that class, i.e. its row holding the
   * association (None when no row does). A discriminator no class declared
   * has no such attribute.
   */
  ghost function Parent(t: Tables, a: Uuid): (r: Result<Option<EntityRef>, TagError>)
    requires a in t.associations
    ensures var d := t.associations[a].discriminator;
            (r.Err? <==> d + "_parent" !in Backrefs()) &&
            (r.Err? ==> r.error == UnknownDiscriminator(d))
    ensures r.Ok? && r.value.Some? ==>
              r.value.value in t.tagColumns && t.tagColumns[r.value.value] == Some(a) &&
              Backrefs()[t.associations[a].discriminator + "_parent"] == r.value.value.kind
  {
    var d := t.associations[a].discriminator;
    if d + "_parent" !in Backrefs() then Err(UnknownDiscriminator(d))
    else
      var hs := Holders(t, a, Backrefs()[d + "_parent"]);
      if hs == {} then Ok(None)
      else
        var e :| e in hs;
        Ok(Some(e))
  }

  lemma DiscriminatorValues()
    ensures DiscriminatorOf(RouteKind) == "route"
    ensures DiscriminatorOf(SubnetKind) == "subnet"
    ensures DiscriminatorOf(IpKind) == "ip"
    ensures DiscriminatorOf(PortKind) == "port"
    ensures DiscriminatorOf(NetworkKind) == "network"
  {
  }

  /** Every taggable class's discriminator names its own back-reference, and only its own. */
  lemma BackrefOfDiscriminator(k: TaggableKind)
    ensures DiscriminatorOf(k) + "_parent" in Backrefs()
    ensures Backrefs()[DiscriminatorOf(k) + "_parent"] == k
  {
    DiscriminatorValues();
  }

  /**
   * The parent of an association is the row that holds it: follow the
   * discriminator to the class, and the row of that class is unique.
   */
  lemma ParentIsHolder(t: Tables, e: EntityRef)
    requires Consistent(t) && e in t.tagColumns && t.tagColumns[e].Some?
    ensures Parent(t, t.tagColumns[e].value) == Ok(Some(e))
  {
    var a := t.tagColumns[e].value;
    BackrefOfDiscriminator(e.kind);
    assert e in Holders(t, a, e.kind);
  }

  /** Tags written to a row read back as written, in order and with duplicates. */
  lemma TagsSetThenRead(t: Tables, e: EntityRef, tags: seq<string>, newUuid: Uuid)
    requires Consistent(t) && e in t.tagColumns
    requires newUuid !in t.associations
    ensures Consistent(TagsSet(t, e, tags, newUuid))
    ensures TagsOf(TagsSet(t, e, tags, newUuid), e) == tags
  {
    TagsSetConsistent(t, e, tags, newUuid);
  }

  /** Creating an association for an untagged row keeps every constraint. */
  lemma TagsCreatedConsistent(t: Tables, e: EntityRef, tags: seq<string>, newUuid: Uuid)
    requires Consistent(t) && e in t.tagColumns && t.tagColumns[e].None?
    requires newUuid !in t.associations
    ensures Consistent(TagsSet(t, e, tags, newUuid))
  {
    var t' := TagsSet(t, e, tags, newUuid);
    forall x | x in t'.tagColumns && t'.tagColumns[x].Some?
      ensures t'.tagColumns[x].value in t'.associations
      ensures t'.associations[t'.tagColumns[x].value].discriminator == DiscriminatorOf(x.kind)
    {
      if x != e {
        assert t'.tagColumns[x] == t.tagColumns[x];
        assert t.tagColumns[x].value != newUuid;
      }
    }
    forall x, y | x in t'.tagColumns && y in t'.tagColumns && t'.tagColumns[x].Some? && t'.tagColumns[x] == t'.tagColumns[y]
      ensures x == y
    {
      if x != e && y != e {
        assert t.tagColumns[x] == t.tagColumns[y];
      }
    }
  }

  /** Writing one row's tags keeps every constraint. */
  lemma TagsSetConsistent(t: Tables, e: EntityRef, tags: seq<string>, newUuid: Uuid)
    requires Consistent(t) && e in t.tagColumns
    requires newUuid !in t.associations
    ensures Consistent(TagsSet(t, e, tags, newUuid))
  {
    if t.tagColumns[e].None? {
      TagsCreatedConsistent(t, e, tags, newUuid);
    }
  }

  /** Writing one row's tags leaves the tags of every other row as they were. */
  lemma TagsSetIsolated(t: Tables, e: EntityRef, tags: seq<string>, newUuid: Uuid, other: EntityRef)
    requires Consistent(t) && e in t.tagColumns && other in t.tagColumns && other != e
    requires newUuid !in t.associations
    ensures Consistent(TagsSet(t, e, tags, newUuid))
    ensures TagsOf(TagsSet(t, e, tags, newUuid), other) == TagsOf(t, other)
  {
    TagsSetConsistent(t, e, tags, newUuid);
  }

  /**
   * The first write to an untagged row creates an association whose
   * discriminator is the lower-cased class name, and whose parent is that row.
   */
  lemma FirstTagWrite(t: Tables, e: EntityRef, tags: seq<string>, newUuid: Uuid)
    requires Consistent(t) && e in t.tagColumns && t.tagColumns[e].None?
    requires newUuid !in t.associations
    ensures var t' := TagsSet(t, e, tags, newUuid);
            Consistent(t') &&
            t'.associations[newUuid].discriminator == Lower(ClassName(e.kind)) &&
            TagsOf(t', e) == tags &&
            Parent(t', newUuid) == Ok(Some(e))
  {
    TagsSetConsistent(t, e, tags, newUuid);
    ParentIsHolder(TagsSet(t, e, tags, newUuid), e);
  }

  /**
   * Deleting an Ip does not delete its association: after the Ip is
   * deallocated its association is still there, and its parent is None.
   */
  lemma DeallocationOrphansTags(t: Tables, ipUuid: Uuid, newUuid: Uuid)
    requires Consistent(t) && newUuid !in t.allocatableIps
    requires ipUuid in t.ips && t.tagColumns[EntityRef(IpKind, ipUuid)].Some?
    requires IpDeallocation(t, ipUuid, newUuid).result.Ok?
    ensures var a := t.tagColumns[EntityRef(IpKind, ipUuid)].value;
            var after := IpDeallocation(t, ipUuid, newUuid).after;
            Consistent(after) && a in after.associations && Parent(after, a) == Ok(None)
  {
    var ref := EntityRef(IpKind, ipUuid);
    var a := t.tagColumns[ref].value;
    var after := IpDeallocation(t, ipUuid, newUuid).after;
    IpDeallocationPreserves(t, ipUuid, newUuid);
    BackrefOfDiscriminator(IpKind);
    assert Holders(after, a, IpKind) == {} by {
      forall e | e in t.tagColumns && t.tagColumns[e] == Some(a) ensures e == ref {
      }
    }
  }

  // ---------------------------------------------------------------------
  // The session

  /** The ORM session: the tables it holds, which deallocation and tag writes change in place. */
  class Session {
    var ips: map<Uuid, Ip>
    var allocatableIps: map<Uuid, AllocatableIp>
    var macPools: map<Uuid, MacPool>
    var macs: map<Uuid, Mac>
    var allocatableMacs: map<Uuid, AllocatableMac>
    var tagColumns: map<EntityRef, Option<Uuid>>
    var associations: map<Uuid, TagAssociation>

    function Contents(): Tables
      reads this
    {
      Tables(ips, allocatableIps, macPools, macs, allocatableMacs, tagColumns, associations)
    }

    ghost predicate Valid()
      reads this
    {
      Consistent(Contents())
    }

    constructor (t: Tables)
      requires Consistent(t)
      ensures Valid() && Contents() == t
    {
      ips, allocatableIps, macPools := t.ips, t.allocatableIps, t.macPools;
      macs, allocatableMacs := t.macs, t.allocatableMacs;
      tagColumns, associations := t.tagColumns, t.associations;
    }

    /** `Ip.deallocate` followed by the flush. */
    method DeallocateIp(ipUuid: Uuid, newUuid: Uuid) returns (r: Result<AllocatableIp, StoreError>)
      requires Valid()
      requires newUuid !in allocatableIps
      modifies this
      ensures Valid()
      ensures Outcome(r, Contents()) == IpDeallocation(old(Contents()), ipUuid, newUuid)
    {
      ghost var before := Contents();
      IpDeallocationPreserves(before, ipUuid, newUuid);
      if ipUuid !in ips {
        return Err(NoSession);
      }
      var ip := ips[ipUuid];
      var reservation := AllocatableIp(ip.subnetUuid, ip.address, false);
      if IpReservationConflicts(allocatableIps, reservation) {
        return Err(IntegrityError);
      }
      allocatableIps := allocatableIps[newUuid := reservation];
      ips := ips - {ipUuid};
      tagColumns := tagColumns - {EntityRef(IpKind, ipUuid)};
      r := Ok(reservation);
      assert Contents() == IpDeallocation(before, ipUuid, newUuid).after;
    }

    /** `Mac.deallocate` followed by the flush. */
    method DeallocateMac(macUuid: Uuid, newUuid: Uuid) returns (r: Result<AllocatableMac, StoreError>)
      requires Valid()
      requires newUuid !in allocatableMacs
      modifies this
      ensures Valid()
      ensures Outcome(r, Contents()) == MacDeallocation(old(Contents()), macUuid, newUuid)
    {
      ghost var before := Contents();
      MacDeallocationPreserves(before, macUuid, newUuid);
      if macUuid !in macs {
        return Err(NoSession);
      }
      var mac := macs[macUuid];
      var network: Option<Uuid> := None;
      if macPools[mac.poolUuid].networkUuid.Some? {
        network := macPools[mac.poolUuid].networkUuid;
      }
      var reservation := AllocatableMac(network, mac.address, false);
      if MacReservationConflicts(allocatableMacs, reservation) {
        return Err(IntegrityError);
      }
      allocatableMacs := allocatableMacs[newUuid := reservation];
      macs := macs - {macUuid};
      r := Ok(reservation);
      assert Contents() == MacDeallocation(before, macUuid, newUuid).after;
    }

    /**
     * Assigning `entity.tags`, as intended: the association's tag rows are
     * replaced. This is TagsSet, the corrected write; as written, replacing
     * existing Tag rows fails at the flush (TagsSetAsWritten).
     */
    method SetTags(e: EntityRef, tags: seq<string>, newUuid: Uuid)
      requires Valid() && e in tagColumns
      requires newUuid !in associations
      modifies this
      ensures Valid()
      ensures Contents() == TagsSet(old(Contents()), e, tags, newUuid)
    {
      ghost var before := Contents();
      var rows := TagRows(tags);
      match tagColumns[e] {
      case None =>
        associations := associations[newUuid := TagAssociation(DiscriminatorOf(e.kind), rows)];
        tagColumns := tagColumns[e := Some(newUuid)];
        assert Contents() == before.(tagColumns := tagColumns, associations := associations);
      case Some(a) =>
        associations := associations[a := associations[a].(tagRows := rows)];
        assert Contents() == before.(associations := associations);
      }
      TagsSetConsistent(before, e, tags, newUuid);
    }
  }
}
