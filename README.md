# newtonian models, in Dafny

This project models the data layer of newtonian, a small network-address management service. It covers the declarative models of `newtonian/models.py` and the column types of `newtonian/custom_types.py`:

- **Naming rule** (`Naming`, `Tables`). Each mapped class gets a display name: its camel-case class name, split into words by underscores and lower-cased. It also gets a table name: the display name plus `s`, unless the class declares its own. The tag discriminator is the lower-cased class name.
- **INET column** (`Inet`). An IPv4 address is stored in its IPv4-mapped IPv6 form. An IPv4-mapped value loads back as IPv4.
- **MAC column** (`MacCodec`). A MAC address is stored as its 48-bit value and always loads in the unix dialect.
- **Declarative enumerations** (`DeclEnum`, `States`). The metaclass registers every `(code, description)` attribute under its code. `from_string` looks a code up. The enum column stores the code, strips the loaded text and looks it up again. The enum type is named `ck` followed by the underscored, lower-cased enum name. `PortState` and `NetworkState` are the two enums models.py declares.
- **Session** (`Models`). It holds the Ip, AllocatableIp, MacPool, Mac, AllocatableMac and TagAssociation tables, plus the tag column of every taggable row.
  - Its consistency invariant is made of the database's own constraints and of two facts the model keeps. The database's are the four unique constraints, the `pool_uuid` foreign key, and the `tag_association_uuid` foreign key. The model's are that every Ip row has its tag column, and that each association is held by at most one row, of the class its discriminator names (each association is created for one row); `Models.ParentIsHolder` relies on the latter.
  - `Ip.deallocate` and `Mac.deallocate` are modelled together with the flush that follows each one. `deallocate` is a method of a `Session` class that changes the tables in place. The method is proved against a function on table values, and the lemmas about that function prove the invariant is kept.
  - The `tags` proxy reads and writes an entity's tags through its association. `TagAssociation.parent` finds the row that holds an association.

Address columns are compared in their stored form. So an IPv4 address and its IPv4-mapped IPv6 form are one value to a unique constraint. A NULL `network_uuid` never conflicts, as in SQL. A flush that would violate a constraint leaves every table as it was.

## Model

| member | source | states |
|---|---|---|
| Naming.Lower | newtonian/models.py:33-34 | `.lower()` keeps the length, lowers each ASCII capital and leaves every other character alone; no capital remains |
| Naming.DisplayName | newtonian/models.py:31-34 | the display name has no capitals, is at least as long as the class name, starts with the lowered first letter, and does not start with `_` when the class name does not |
| Naming.Discriminator | newtonian/models.py:134 | the discriminator is the class name lower-cased: same length, no capitals |
| Naming.CollectionName | newtonian/models.py:36-41 | the table name is the declared `__collection_name__` when there is one, otherwise the display name followed by `s` |
| Naming.MarkWords | newtonian/models.py:33 | the `re.sub` step: an underscore before every character at which a word starts (StartsWord), every character kept in order |
| Naming.MarkWordsLength | newtonian/models.py:33 | the marked suffix is at least as long as the original suffix, and a position that begins no word keeps its character as the first of the marked suffix |
| Naming.MarkWordsFromUnmarked | newtonian/models.py:33 | deleting the inserted underscores from a name without underscores gives the name back |
| Naming.DisplayNameUnsplit | newtonian/models.py:31-34 | for a class name without underscores, the display name minus its underscores is the lowered class name, i.e. the discriminator |
| Naming.DisplayNameIdempotent | newtonian/models.py:31-34 | applying the rule to a display name changes nothing |
| Naming.MarkWordsFromWords | newtonian/models.py:33 | on a run of capitalised words the substitution puts one underscore before each word, except before the name's first character |
| Naming.CamelCaseDisplayName | newtonian/models.py:31-34 | the display name of a concatenation of capitalised words is the words joined by `_`, lower-cased |
| Naming.AcronymDisplayName | newtonian/models.py:31-34 | a run of capitals followed by capitalised words displays as the run lower-cased, one `_`, then the words joined by `_` and lower-cased: inside the run only the capital that begins a lower-case word is marked |
| Tables.TableNames | newtonian/models.py:27-41 | the table of every mapped class, from `tags` to `networks`, with `tag_association` from the override; these are the tables the foreign keys name |
| Tables.TableListAgrees | newtonian/models.py:27-41 | the list of table names is, position by position, the table names of the mapped classes |
| Tables.TableNamesDistinct | newtonian/models.py:27-41 | no two mapped classes share a table |
| DeclEnum.Build | newtonian/custom_types.py:125-131 | creating an enum class copies the base registry and registers the body's pair attributes; a created class has the given name, and a failure is the `TypeError` of a malformed tuple (BuildFromFails, BuildFromRegistry, BuildFromMembers and BuildFromLastWins state the rest) |
| DeclEnum.BuildFrom | newtonian/custom_types.py:126-131 | registering the rest of a class body keeps the class name, and fails only with the `TypeError` of a malformed tuple |
| DeclEnum.CreateEnum | newtonian/custom_types.py:125-131 | the metaclass loop computes exactly the class that Build describes, or the error its creation raises |
| DeclEnum.BuildFromFails | newtonian/custom_types.py:127-129 | creating an enum fails exactly when some tuple attribute is not a (code, description) pair |
| DeclEnum.Codes | newtonian/custom_types.py:127-129 | the body's codes are exactly the codes of its pair attributes |
| DeclEnum.PairNames | newtonian/custom_types.py:128-131 | the names `setattr` is given are exactly the names of the body's pair attributes |
| DeclEnum.BuildFromRegistry | newtonian/custom_types.py:125-131 | the new registry holds exactly the base's codes plus the body's codes, each symbol under its own code; the class's symbol attributes are exactly those it had plus the pair attributes, each belonging to the new class under its attribute name, and a pair attribute whose name does not recur holds the symbol of its own code and description |
| DeclEnum.BuildFromMembers | newtonian/custom_types.py:128-131 | `setattr` leaves each pair attribute holding the symbol of its own name, code and description (the last one, should a name recur), and an attribute the body does not set keeps its symbol |
| DeclEnum.BuildFromLastWins | newtonian/custom_types.py:126-129 | a code maps to the last pair attribute that registers it; a base symbol survives unless the body registers its code |
| DeclEnum.BuildRegistry | newtonian/custom_types.py:125-131 | the same for a class created from a base: the registry copy plus the body's codes, and symbol attributes exactly the pair attributes, each holding the symbol of its own code and description |
| DeclEnum.FromString | newtonian/custom_types.py:143-149 | `from_string` succeeds exactly on registered codes, returns the registered symbol, and raises `ValueError` naming the enum and the value otherwise |
| DeclEnum.Values | newtonian/custom_types.py:151-153 | `values()` is exactly the set of codes `from_string` accepts |
| DeclEnum.Strip | newtonian/custom_types.py:182 | `strip()` removes only leading and trailing whitespace, and the result neither starts nor ends with whitespace |
| DeclEnum.StripPadded | newtonian/custom_types.py:182 | stripping whitespace-padded text that is already stripped gives that text back |
| DeclEnum.BindSymbol | newtonian/custom_types.py:174-177 | the column stores a symbol's code, and None as NULL |
| DeclEnum.LoadSymbol | newtonian/custom_types.py:179-182 | NULL loads as None; other text loads as the symbol registered under its stripped form, or raises `ValueError` |
| DeclEnum.SymbolRoundTrip | newtonian/custom_types.py:174-182 | for a registered symbol whose code has no surrounding whitespace, loading what was bound gives back that symbol |
| DeclEnum.PaddedCodeLoads | newtonian/custom_types.py:179-182 | a registered code with no surrounding whitespace of its own, padded with whitespace in the column, still loads as its symbol |
| DeclEnum.ConstraintName | newtonian/custom_types.py:163-165 | the enum type name starts with `ck`, is longer than the enum name by at least two, and has no capitals (ConstraintNameShape, ConstraintNameOfWords and ConstraintNameIsDisplayName pin it) |
| DeclEnum.ConstraintNameShape | newtonian/custom_types.py:163-165 | the enum type name has no capitals and, without its underscores, is `ck` plus the lowered enum name |
| DeclEnum.ConstraintNameOfWords | newtonian/custom_types.py:163-165 | for an enum named by capitalised words the type name is `ck_` plus the words joined by `_`, lower-cased |
| DeclEnum.ConstraintNameIsDisplayName | newtonian/custom_types.py:163-165 | for such names the type name is `ck_` followed by the display name of the models' naming rule |
| States.PortStateRegistry | newtonian/models.py:149-151 | PortState registers `U` as `up` ("Up") and `D` as `down` ("Down") and nothing else, and its attributes `up` and `down` are those two symbols |
| States.NetworkStateRegistry | newtonian/models.py:154-156 | the same for NetworkState, registry and attributes |
| States.StatesShareCodesNotSymbols | newtonian/models.py:149-156 | the two enums have the values {U, D}, but their symbols differ; an unknown code raises `ValueError` |
| States.PortStateConstraintName | newtonian/models.py:268 | the PortState column type is named `ck_port_state` |
| States.NetworkStateConstraintName | newtonian/models.py:273 | the NetworkState column type is named `ck_network_state` |
| Inet.MapToV6 | newtonian/custom_types.py:28-29 | `ipv6()` of an IPv4 address is in `::ffff:0:0/96` and carries the address in its low 32 bits |
| Inet.IsIpv4Mapped | newtonian/custom_types.py:39 | `is_ipv4_mapped()`: an IPv6 address whose bits above the low 32 are 0xFFFF |
| Inet.ToStored | newtonian/custom_types.py:28-31 | every stored address is IPv6; IPv6 is stored as is; IPv4 is stored IPv4-mapped |
| Inet.FromStored | newtonian/custom_types.py:37-42 | an IPv4-mapped value loads as the IPv4 address of its low 32 bits; anything else loads as is |
| Inet.Bind | newtonian/custom_types.py:21-31 | NULL passes through; an address, or a literal that parses, is written in its stored form (IPv4 mapped, IPv6 unchanged); a literal fails exactly when parsing fails; whatever is written is IPv6 |
| Inet.Load | newtonian/custom_types.py:33-42 | NULL passes through; a column value loads as FromStored of it (an IPv4-mapped value as its IPv4 address, anything else unchanged); nothing loaded is IPv4-mapped |
| Inet.RoundTripV4 | newtonian/custom_types.py:21-42 | an IPv4 address is written IPv4-mapped and loads back as the same IPv4 address |
| Inet.RoundTrip | newtonian/custom_types.py:21-42 | bind then load is the identity on every address that is not IPv4-mapped, and turns a mapped one into its IPv4 address |
| Inet.RoundTripLiteral | newtonian/custom_types.py:25-26 | a literal that parses to an address that is not IPv4-mapped loads back as the address it denotes |
| Inet.StoredIsFixedPoint | newtonian/custom_types.py:21-42 | loading a column value and binding it again writes the same value |
| Inet.SameStoredIffSameLoaded | newtonian/custom_types.py:21-42 | two addresses are stored alike exactly when they load alike |
| Inet.MappedFormsCollide | newtonian/custom_types.py:28-29 | an IPv4 address and its IPv4-mapped form are different addresses, but one column value |
| MacCodec.Bind | newtonian/custom_types.py:54-62 | NULL passes through; an `EUI` is written as its value; a literal is parsed and fails exactly when parsing fails |
| MacCodec.Load | newtonian/custom_types.py:64-71 | NULL passes through; every loaded value is in the unix dialect |
| MacCodec.RoundTrip | newtonian/custom_types.py:54-71 | bind then load keeps the 48-bit value and sets the unix dialect; a unix-dialect `EUI` comes back unchanged |
| MacCodec.StoredIsFixedPoint | newtonian/custom_types.py:54-71 | binding a loaded value writes the same column value |
| Models.UniqueIps | newtonian/models.py:197 | no two Ip rows share a stored address and a subnet |
| Models.UniqueAllocatableIps | newtonian/models.py:187 | no two AllocatableIp rows share a stored address and a subnet |
| Models.UniqueMacs | newtonian/models.py:236 | no two Mac rows share an address and a network; a NULL network never conflicts |
| Models.UniqueAllocatableMacs | newtonian/models.py:224 | no two AllocatableMac rows share an address and a network; a NULL network never conflicts |
| Models.IpDeallocation | newtonian/models.py:206-213 | an Ip outside the session fails; otherwise the reservation (the Ip's subnet and address, not available) is refused exactly when its stored address and subnet are already reserved, leaving every table unchanged; on success the Ip and its tag column are deleted and the reservation is added and returned |
| Models.MacDeallocation | newtonian/models.py:247-258 | the intended write of "## Findings" for a Mac: the same as for an Ip, with the Mac's 48-bit address; the reservation's network is the pool's network when it has one, else NULL, and a NULL network never conflicts |
| Models.MacDeallocationAsWritten | newtonian/models.py:247-258 | as written, deallocating a Mac in the session fails at the flush, when the INET column cannot read the Mac's `EUI`, and every table is left as it was; a Mac in no session fails with no session |
| Models.MacDeallocationFailsAsWritten | newtonian/models.py:247-258 | a Mac from a pool without a network fails to deallocate as written, while the intended write moves it into a NULL-network reservation and keeps every constraint |
| Models.AddIpReservation | newtonian/models.py:188 | adding a reservation keeps the AllocatableIp constraint exactly when no reserved row has the same stored address and subnet |
| Models.AddMacReservation | newtonian/models.py:224 | adding a reservation keeps the AllocatableMac constraint exactly when it has no network, or no reserved row has the same address and network |
| Models.IpDeallocationPreserves | newtonian/models.py:206-213 | an Ip deallocation keeps every constraint, removes one Ip, adds one reservation and touches no other table |
| Models.MacDeallocationPreserves | newtonian/models.py:247-258 | a Mac deallocation keeps every constraint, removes one Mac, adds one reservation and touches no other table |
| Models.DeallocateIpTwice | newtonian/models.py:206-212 | after commit a deallocated Ip is detached: deallocating it again finds no session |
| Models.DeallocateIpTwiceInTransaction | newtonian/models.py:206-212 | inside the same transaction the reservation of the first call is already in AllocatableIp, so the second call's identical reservation, under any new key, breaks the AllocatableIp constraint |
| Models.MappedReservationConflicts | newtonian/models.py:197-210 | an IPv4 Ip cannot be deallocated into a subnet that already reserves the same address in IPv4-mapped form |
| Models.UnscopedMacAlwaysDeallocates | newtonian/models.py:250-255 | under the intended write, a Mac whose pool has no network always deallocates, into a reservation with a NULL network |
| Models.TagTexts | newtonian/models.py:113 | the association's `tags` are the texts of its Tag rows, in order |
| Models.TagRows | newtonian/models.py:113-114 | the creator makes one Tag per string, and reading the rows back gives the strings |
| Models.TagsOf | newtonian/models.py:75-81 | reading `tags` gives the empty list for a row without an association, else its association's tags |
| Models.TagsSet | newtonian/models.py:116-119 | writing `tags` touches only the tag tables; a row without an association gets a new one with its class's discriminator; otherwise its association's tag rows are replaced |
| Models.TagsSetThenRead | newtonian/models.py:75-87 | after writing tags the tables stay consistent and reading them gives the written list |
| Models.TagsSetConsistent | newtonian/models.py:127-141 | writing tags keeps every constraint and foreign key |
| Models.TagsSetIsolated | newtonian/models.py:127-141 | writing one row's tags leaves every other row's tags as they were |
| Models.FirstTagWrite | newtonian/models.py:116-141 | the first write creates an association whose discriminator is the class's and whose parent is the written row |
| Models.TagsSetAsWritten | newtonian/models.py:101-119 | the tag write as the ORM carries it out fails with nothing changed exactly when the row already has tags, and otherwise leaves the tables TagsSet gives |
| Models.RetaggingFailsAsWritten | newtonian/models.py:101-114 | as written, replacing the tags of a row that already has tags fails at the flush and changes nothing, while the intended write replaces them |
| Models.FirstWriteAsWritten | newtonian/models.py:101-114 | where no Tag row is removed, the write as written and the intended write agree |
| Models.Backrefs | newtonian/models.py:134-141 | the `<discriminator>_parent` back-reference each taggable class declares, mapped to that class |
| Models.Parent | newtonian/models.py:121-124 | `parent` fails exactly when no class declares a back-reference for the discriminator; otherwise it is the row of that class holding the association, or None |
| Models.DiscriminatorValues | newtonian/models.py:134 | the discriminators are `route`, `subnet`, `ip`, `port`, `network` |
| Models.BackrefOfDiscriminator | newtonian/models.py:140 | every taggable class's discriminator names its own `<discriminator>_parent` back-reference |
| Models.ParentIsHolder | newtonian/models.py:121-124 | the parent of a held association is the row holding it |
| Models.DeallocationOrphansTags | newtonian/models.py:206-213 | after an Ip is deallocated its association stays, with parent None |
| Models.Session.DeallocateIp | newtonian/models.py:206-213 | the method keeps the session valid; its result and new tables are IpDeallocation's |
| Models.Session.DeallocateMac | newtonian/models.py:247-258 | the method keeps the session valid; its result and new tables are MacDeallocation's, the intended write of "## Findings" |
| Models.Session.SetTags | newtonian/models.py:127-141 | assigning `tags` keeps the session valid; the new tables are TagsSet's, the corrected write of "## Findings" (a row's existing tags are replaced) |

## Findings

| source | as written | input that shows it | evidently intended | confidence | as-written member | corrected member |
|---|---|---|---|---|---|---|
| newtonian/models.py:101-114 | `Tag.association_uuid` is declared through the `ForeignKey` helper, which makes it NOT NULL. The `tags_association` back-reference has no delete-orphan cascade. So assigning `tags` to an association that already has Tag rows removes those rows from the collection, and the flush sets their `association_uuid` to NULL, which the column rejects | an Ip tagged `["a"]`, assigned `["b"]` (or `[]`) | the old tags are replaced by the new ones | medium (depends on the ORM's default cascade; not executed) | Models.TagsSetAsWritten, Models.RetaggingFailsAsWritten | Models.TagsSet, Models.TagsSetThenRead |
| newtonian/models.py:231-258 | `AllocatableMac.address` is declared with the INET type, and `Mac.deallocate` puts the Mac's address into it. A Mac's address is an `EUI` (the MAC column loads one), and INET's bind passes it to `netaddr.IPAddress`, which reads an address from an `IPAddress`, an integer or a string, not from an `EUI`. So the flush of the new reservation fails | any Mac loaded from the table, for example `00:16:3e:00:00:01` in a pool without a network, deallocated | the reservation records the Mac's address, and the Mac moves from the Mac table to the AllocatableMac table | medium (depends on netaddr's `IPAddress` constructor rejecting an `EUI`; not executed) | Models.MacDeallocationAsWritten, Models.MacDeallocationFailsAsWritten | Models.MacDeallocation, Models.MacDeallocationPreserves |

## Left out

- `NewtonianBase.dictify`, `__name__`, `created_at`/`updated_at`: serialisation and timestamps are outside the model; `utcnow` is a clock.
- `uuid4()` primary keys: a new key is a caller-supplied parameter, required to be fresh for its table.
- The `UUID` column type and every `load_dialect_impl`: these only choose a database column type per dialect.
- netaddr's parsing and rendering: a parse is a caller-supplied function that may fail, and a stored column value is modelled as the address or 48-bit value its text denotes.
- MacCodec.Bind: the model does not capture that binding sets the dialect of the caller's own `EUI` object to unix, a side effect on the argument.
- The Subnet, Route, MetaIp, Port and Network tables are not modelled as tables: only their tag columns appear, and no foreign key into them is checked. Subnet's `unique` and `active` flags, and `netaddr`/`version`, have no behaviour the model needs.
- The NOT NULL constraints on the remaining columns are not modelled (the row datatypes have no null fields there).
- Allocation: the source has no allocation logic, so there is no pool scan, reuse policy or exhaustion error to model.
- Models.IpDeallocation: `Ip.deallocate` ignores `Subnet.unique` and always creates a reservation whose `available` flag keeps its default, false.
- Models.MacDeallocation: this is the intended write. As written, the reservation's INET `address` column cannot bind the Mac's `EUI`, so every Mac deallocation fails at the flush (Models.MacDeallocationAsWritten, see Findings). The intended write keeps the 48-bit MAC value in the reservation and does not model an INET text form for it. It follows the code otherwise: a Mac from a pool without a network gets a reservation with a NULL network, and the code records no pool scope for it.
- Models.Session.DeallocateMac: the session applies the intended write (MacDeallocation); it does not reproduce the failed flush of the write as written.
- Models.DeallocateIpTwice: NoSession stands for a call on a row that is in no session, as a deleted row is once its transaction is committed; the model reports it as NoSession rather than as a typed "not found" error. Inside one transaction the deleted row keeps its session, and the second call fails at the flush on the AllocatableIp constraint (Models.DeallocateIpTwiceInTransaction); the model does not keep the deleted row's data to replay that call whole.
- Models.Session.DeallocateIp and Models.Session.DeallocateMac: `session.add`, `session.delete` and the next flush are folded into one step; autoflush order, concurrency, and a failed flush that leaves the session needing a rollback are not modelled (a failure leaves the tables unchanged).
- Models.Session.SetTags: the session applies the corrected tag write (TagsSet), not the write as the ORM carries it out; where a row already has Tag rows the source's flush fails (TagsSetAsWritten, see Findings), and the session method does not reproduce that failure.
- Models.TagsSet: the Tag table is modelled as rows embedded in their association, not as a table of its own, so the intended write simply drops the replaced rows; the as-written write fails instead (see Findings).
- Models.Parent: a ghost function, since it names the one holder by choice; the `Tag.parent` proxy (`models.py:104`) is that function applied to the tag's association.
- The `tags` proxy is modelled as functions over the tables (TagsOf, TagsSet), not as attribute access on a row object; list mutation through the proxy (append, remove) is not modelled.
- `EnumMeta.__iter__`, `EnumSymbol.__iter__`, `__reduce__` and `__repr__`: iteration order, pickling and display are outside the model.
- DeclEnum.Build: the order of a class body's `dict` iteration is given as the body sequence; tuple items are modelled as strings; attributes inherited from a base enum are not re-set on the subclass, only its registry is copied.
- DeclEnum.Strip and Naming.Lower: ASCII whitespace and ASCII lower-casing only (`str` under Python 2); Unicode is not modelled.
- `DeclEnumType._set_table` and `copy`, and the `sa.Enum` check constraint itself: the model states the type's name and values, not SQLAlchemy's schema objects.
- `renderers.py`, `resources.py`, `views.py`, `interfaces.py`, `__init__.py` and `setup.py`: the web layer is not part of this model.
