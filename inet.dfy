/**
 * The INET column type. Addresses are (version, integer) values; an IPv4
 * address is written to the column as its IPv4-mapped IPv6 form
 * (::ffff:a.b.c.d) so that every stored value is IPv6, and an IPv4-mapped
 * value read back from the column surfaces as IPv4 again.
 *
 * The text rendering of an address (`str(value)`) and the parsing of text
 * (`netaddr.IPAddress(text)`) belong to netaddr: the stored column is
 * modelled as the address the text denotes, and parsing of caller-supplied
 * literals is a parameter that may fail.
 */
module Inet {
  import opened Wrappers

  const TwoTo32: nat := 0x1_0000_0000

  /** The bits above the low 32 of an IPv4-mapped IPv6 address (the prefix ::ffff:0:0/96). */
  const MappedTag: nat := 0xFFFF

  type U32 = n: nat | n < 0x1_0000_0000

  type U128 = n: nat | n < 0x1_0000_0000_0000_0000_0000_0000_0000_0000

  /** A netaddr `IPAddress`: its version and its integer value. */
  datatype IpAddress = V4(v4: U32) | V6(v6: U128)

  /** `IPAddress.is_ipv4_mapped()`: an IPv6 address in ::ffff:0:0/96. */
  predicate IsIpv4Mapped(a: IpAddress) {
    a.V6? && a.v6 / TwoTo32 == MappedTag
  }

  /** `IPAddress.ipv6()` of an IPv4 address. */
  function MapToV6(v: U32): (r: U128)
    ensures r / TwoTo32 == MappedTag && r % TwoTo32 == v
  {
    MappedTag * TwoTo32 + v
  }

  /** The address written to the column for a parsed address: IPv4 becomes IPv4-mapped IPv6. */
  function ToStored(a: IpAddress): (r: IpAddress)
    ensures r.V6?
    ensures a.V6? ==> r == a
    ensures a.V4? ==> IsIpv4Mapped(r) && r.v6 % TwoTo32 == a.v4
  {
    match a
    case V4(v) => V6(MapToV6(v))
    case V6(_) => a
  }

  /** The address a column value loads as: an IPv4-mapped value becomes the IPv4 address of its low 32 bits. */
  function FromStored(a: IpAddress): (r: IpAddress)
    ensures !IsIpv4Mapped(r)
    ensures IsIpv4Mapped(a) ==> r == V4(a.v6 % TwoTo32)
    ensures !IsIpv4Mapped(a) ==> r == a
  {
    if IsIpv4Mapped(a) then V4(a.v6 % TwoTo32) else a
  }

  /** What `process_bind_param` may be handed: an `IPAddress`, or anything else netaddr is asked to parse. */
  datatype BindInput = Address(addr: IpAddress) | Literal(text: string)

  datatype BindError = InvalidAddress(text: string)

  /**
   * `INET.process_bind_param`: None is passed through; a value that is not
   * yet an address is parsed (a parse failure is netaddr's error); IPv4 is
   * mapped into IPv6.
   */
  function Bind(value: Option<BindInput>, parse: string -> Option<IpAddress>): (r: Result<Option<IpAddress>, BindError>)
    ensures value.None? ==> r == Ok(None)
    ensures r.Ok? && r.value.Some? ==> r.value.value.V6?
    ensures value.Some? && value.value.Address? ==> r == Ok(Some(ToStored(value.value.addr)))
    ensures value.Some? && value.value.Literal? ==>
              (r.Err? <==> parse(value.value.text).None?) &&
              (r.Ok? ==> r == Ok(Some(ToStored(parse(value.value.text).value))))
  {
    match value
    case None => Ok(None)
    case Some(Address(a)) => Ok(Some(ToStored(a)))
    case Some(Literal(t)) =>
      match parse(t)
      case None => Err(InvalidAddress(t))
      case Some(a) => Ok(Some(ToStored(a)))
  }

  /** `INET.process_result_value`: None is passed through; IPv4-mapped values surface as IPv4. */
  function Load(stored: Option<IpAddress>): (r: Option<IpAddress>)
    ensures stored.None? <==> r.None?
    ensures stored.Some? ==> r == Some(FromStored(stored.value))
    ensures r.Some? ==> !IsIpv4Mapped(r.value)
  {
    match stored
    case None => None
    case Some(a) => Some(FromStored(a))
  }

  /** Loading what was bound gives back every IPv4 address unchanged (10.0.0.5 comes back as IPv4 10.0.0.5). */
  lemma RoundTripV4(v: U32)
    ensures Bind(Some(Address(V4(v))), _ => None) == Ok(Some(V6(MapToV6(v))))
    ensures Load(Some(V6(MapToV6(v)))) == Some(V4(v))
  {
  }

  /**
   * The round trip is the identity on every address that is not IPv4-mapped,
   * and turns an IPv4-mapped IPv6 address into the IPv4 address it carries.
   */
  lemma RoundTrip(a: IpAddress, parse: string -> Option<IpAddress>)
    ensures Bind(Some(Address(a)), parse).Ok?
    ensures !IsIpv4Mapped(a) ==> Load(Bind(Some(Address(a)), parse).value) == Some(a)
    ensures IsIpv4Mapped(a) ==> Load(Bind(Some(Address(a)), parse).value) == Some(V4(a.v6 % TwoTo32))
  {
    if a.V4? {
      RoundTripV4(a.v4);
    }
  }

  /** The same for a literal that parses: it loads as the address it denotes. */
  lemma RoundTripLiteral(text: string, parse: string -> Option<IpAddress>)
    requires parse(text).Some? && !IsIpv4Mapped(parse(text).value)
    ensures Bind(Some(Literal(text)), parse).Ok?
    ensures Load(Bind(Some(Literal(text)), parse).value) == parse(text)
  {
    RoundTrip(parse(text).value, parse);
  }

  /** Loading a column value and binding the result again writes the same column value. */
  lemma StoredIsFixedPoint(stored: IpAddress, parse: string -> Option<IpAddress>)
    requires stored.V6?
    ensures Bind(Some(Address(FromStored(stored))), parse) == Ok(Some(stored))
  {
    if IsIpv4Mapped(stored) {
      var low := stored.v6 % TwoTo32;
      assert stored.v6 == MappedTag * TwoTo32 + low;
    }
  }

  /**
   * Two addresses are written as the same column value exactly when they load
   * as the same address: an IPv4 address and its IPv4-mapped IPv6 form are
   * one value to the column (and to any uniqueness constraint on it).
   */
  lemma SameStoredIffSameLoaded(a: IpAddress, b: IpAddress)
    ensures ToStored(a) == ToStored(b) <==> FromStored(ToStored(a)) == FromStored(ToStored(b))
  {
    if FromStored(ToStored(a)) == FromStored(ToStored(b)) {
      StoredIsFixedPoint(ToStored(a), _ => None);
      StoredIsFixedPoint(ToStored(b), _ => None);
    }
  }

  /** An IPv4 address and its IPv4-mapped form collide in the column. */
  lemma MappedFormsCollide(v: U32)
    ensures V4(v) != V6(MapToV6(v))
    ensures ToStored(V4(v)) == ToStored(V6(MapToV6(v)))
  {
  }
}
