/**
 * Declarative enumerations: a class whose tuple-valued attributes
 * `name = (code, description)` become symbols, registered under their code,
 * and the column type that stores a symbol as its code.
 *
 * Creating an enum class (what the metaclass does) starts from a copy of
 * the base class's registry and walks the class body in its iteration
 * order; the class body is that sequence of (attribute name, value) pairs.
 */
module DeclEnum {
  import opened Wrappers
  import opened Naming

  /** An `EnumSymbol`: the enum class it belongs to, its attribute name, its code and its description. */
  datatype EnumSymbol = EnumSymbol(cls: string, name: string, value: string, description: string)

  /** A class-body value as the metaclass sees it: a tuple (of strings here) or anything else. */
  datatype Attribute = TupleAttr(items: seq<string>) | OtherAttr

  datatype EnumError =
    | TypeError(attribute: string)          // a tuple that is not exactly (code, description)
    | ValueError(enumName: string, code: string)  // `from_string` of an unregistered code

  /** An enum class: its name, its registry `_reg` (code to symbol), and the symbols set as its attributes. */
  datatype EnumClass = EnumClass(name: string, reg: map<string, EnumSymbol>, members: map<string, EnumSymbol>)

  /** `DeclEnum` itself: its class body holds no tuple, so its registry is empty. */
  const DeclEnumBase := EnumClass("DeclEnum", map[], map[])

  /** Registering the rest of a class body into a class under construction. */
  function BuildFrom(cls: EnumClass, body: seq<(string, Attribute)>): (r: Result<EnumClass, EnumError>)
    ensures r.Ok? ==> r.value.name == cls.name
    ensures r.Err? ==> r.error.TypeError?
    decreases |body|
  {
    if body == [] then Ok(cls)
    else
      var (k, v) := body[0];
      match v
      case OtherAttr => BuildFrom(cls, body[1..])
      case TupleAttr(items) =>
        if |items| != 2 then Err(TypeError(k))
        else
          var sym := EnumSymbol(cls.name, k, items[0], items[1]);
          BuildFrom(cls.(reg := cls.reg[items[0] := sym], members := cls.members[k := sym]), body[1..])
  }

  /** The enum class named `name` with base `base` and class body `body`, or the error its creation raises. */
  function Build(name: string, base: EnumClass, body: seq<(string, Attribute)>): (r: Result<EnumClass, EnumError>)
    ensures r.Ok? ==> r.value.name == name
    ensures r.Err? ==> r.error.TypeError?
  {
    BuildFrom(EnumClass(name, base.reg, map[]), body)
  }

  /** `EnumMeta.__init__`: copy the base registry, then register every tuple attribute of the body in order. */
  method CreateEnum(name: string, base: EnumClass, body: seq<(string, Attribute)>) returns (r: Result<EnumClass, EnumError>)
    ensures r == Build(name, base, body)
  {
    var reg := base.reg;
    var members: map<string, EnumSymbol> := map[];
    var i := 0;
    while i < |body|
      invariant 0 <= i <= |body|
      invariant Build(name, base, body) == BuildFrom(EnumClass(name, reg, members), body[i..])
    {
      var (k, v) := body[i];
      assert body[i..][1..] == body[i + 1..];
      if v.TupleAttr? {
        if |v.items| != 2 {
          return Err(TypeError(k));
        }
        var sym := EnumSymbol(name, k, v.items[0], v.items[1]);
        reg := reg[v.items[0] := sym];
        members := members[k := sym];
      }
      i := i + 1;
    }
    assert body[i..] == [];
    r := Ok(EnumClass(name, reg, members));
  }

  /** A tuple attribute that is not a pair. */
  predicate IsMalformed(a: Attribute) {
    a.TupleAttr? && |a.items| != 2
  }

  predicate IsPair(a: Attribute) {
    a.TupleAttr? && |a.items| == 2
  }

  /** Every symbol is registered under its own code. */
  predicate WellKeyed(reg: map<string, EnumSymbol>) {
    forall c :: c in reg ==> reg[c].value == c
  }

  /** Creation fails exactly when some tuple attribute is not a (code, description) pair. */
  lemma {:induction false} BuildFromFails(cls: EnumClass, body: seq<(string, Attribute)>)
    ensures BuildFrom(cls, body).Err? <==> exists k :: 0 <= k < |body| && IsMalformed(body[k].1)
    decreases |body|
  {
    if body != [] {
      var cls' := if IsPair(body[0].1)
        then cls.(reg := cls.reg[body[0].1.items[0] := EnumSymbol(cls.name, body[0].0, body[0].1.items[0], body[0].1.items[1])],
                  members := cls.members[body[0].0 := EnumSymbol(cls.name, body[0].0, body[0].1.items[0], body[0].1.items[1])])
        else cls;
      BuildFromFails(cls', body[1..]);
      if exists k :: 0 <= k < |body| && IsMalformed(body[k].1) {
        var k :| 0 <= k < |body| && IsMalformed(body[k].1);
        if k > 0 {
          assert IsMalformed(body[1..][k - 1].1);
        }
      }
      if exists k :: 0 <= k < |body[1..]| && IsMalformed(body[1..][k].1) {
        var k :| 0 <= k < |body[1..]| && IsMalformed(body[1..][k].1);
        assert IsMalformed(body[k + 1].1);
      }
    }
  }

  /** The codes of the pair attributes of a body. */
  function Codes(body: seq<(string, Attribute)>): (r: set<string>)
    ensures forall k :: 0 <= k < |body| && IsPair(body[k].1) ==> body[k].1.items[0] in r
    ensures forall c :: c in r ==> exists k :: 0 <= k < |body| && IsPair(body[k].1) && body[k].1.items[0] == c
  {
    if body == [] then {}
    else (if IsPair(body[0].1) then {body[0].1.items[0]} else {}) + Codes(body[1..])
  }

  /** The attribute names of the pair attributes of a body. */
  function PairNames(body: seq<(string, Attribute)>): (r: set<string>)
    ensures forall k :: 0 <= k < |body| && IsPair(body[k].1) ==> body[k].0 in r
    ensures forall n :: n in r ==> exists k :: 0 <= k < |body| && IsPair(body[k].1) && body[k].0 == n
  {
    if body == [] then {}
    else (if IsPair(body[0].1) then {body[0].0} else {}) + PairNames(body[1..])
  }

  /**
   * The attributes `setattr` leaves on a created class: every pair attribute
   * holds the symbol made from its own code and description (the last such
   * attribute of its name, should a name recur), and an attribute the body
   * does not set keeps its symbol.
   */
  lemma {:induction false} BuildFromMembers(cls: EnumClass, body: seq<(string, Attribute)>, n: string)
    requires BuildFrom(cls, body).Ok?
    ensures n !in PairNames(body) && n in cls.members ==>
              n in BuildFrom(cls, body).value.members && BuildFrom(cls, body).value.members[n] == cls.members[n]
    ensures forall i :: 0 <= i < |body| && IsPair(body[i].1) && body[i].0 == n && n !in PairNames(body[i + 1..]) ==>
              n in BuildFrom(cls, body).value.members &&
              BuildFrom(cls, body).value.members[n] == EnumSymbol(cls.name, n, body[i].1.items[0], body[i].1.items[1])
    decreases |body|
  {
    if body != [] {
      var (k, v) := body[0];
      var cls' := if IsPair(v)
        then cls.(reg := cls.reg[v.items[0] := EnumSymbol(cls.name, k, v.items[0], v.items[1])],
                  members := cls.members[k := EnumSymbol(cls.name, k, v.items[0], v.items[1])])
        else cls;
      assert BuildFrom(cls, body) == BuildFrom(cls', body[1..]);
      BuildFromMembers(cls', body[1..], n);
      forall i | 0 <= i < |body| && IsPair(body[i].1) && body[i].0 == n && n !in PairNames(body[i + 1..])
        ensures n in BuildFrom(cls, body).value.members
        ensures BuildFrom(cls, body).value.members[n] == EnumSymbol(cls.name, n, body[i].1.items[0], body[i].1.items[1])
      {
        if i > 0 {
          assert body[1..][i - 1] == body[i];
          assert body[1..][i - 1 + 1..] == body[i + 1..];
        } else {
          assert body[1..] == body[i + 1..];
        }
      }
    }
  }

  /** The registry half of creation, and the class and name of every symbol attribute. */
  lemma {:induction false} BuildFromKeys(cls: EnumClass, body: seq<(string, Attribute)>)
    requires BuildFrom(cls, body).Ok?
    requires WellKeyed(cls.reg)
    requires forall k :: k in cls.members ==> cls.members[k].name == k && cls.members[k].cls == cls.name
    ensures BuildFrom(cls, body).value.reg.Keys == cls.reg.Keys + Codes(body)
    ensures WellKeyed(BuildFrom(cls, body).value.reg)
    ensures var m := BuildFrom(cls, body).value.members;
            forall k :: k in m ==> m[k].name == k && m[k].cls == cls.name
    decreases |body|
  {
    if body != [] {
      var (k, v) := body[0];
      if IsPair(v) {
        var sym := EnumSymbol(cls.name, k, v.items[0], v.items[1]);
        BuildFromKeys(cls.(reg := cls.reg[v.items[0] := sym], members := cls.members[k := sym]), body[1..]);
      } else {
        BuildFromKeys(cls, body[1..]);
      }
    }
  }

  /** The attributes `setattr` adds are exactly the pair attributes. */
  lemma {:induction false} BuildFromMemberKeys(cls: EnumClass, body: seq<(string, Attribute)>)
    requires BuildFrom(cls, body).Ok?
    ensures BuildFrom(cls, body).value.members.Keys == cls.members.Keys + PairNames(body)
    decreases |body|
  {
    if body != [] {
      var (k, v) := body[0];
      if IsPair(v) {
        var sym := EnumSymbol(cls.name, k, v.items[0], v.items[1]);
        BuildFromMemberKeys(cls.(reg := cls.reg[v.items[0] := sym], members := cls.members[k := sym]), body[1..]);
      } else {
        BuildFromMemberKeys(cls, body[1..]);
      }
    }
  }

  /**
   * A created class's registry holds exactly the base's codes and the codes
   * of its own pair attributes, every symbol under its own code. Its
   * attributes are those it had and its pair attributes, each belonging to
   * the new class under its own name, and a pair attribute whose name does
   * not recur holds the symbol of its own code and description.
   */
  lemma BuildFromRegistry(cls: EnumClass, body: seq<(string, Attribute)>)
    requires BuildFrom(cls, body).Ok?
    requires WellKeyed(cls.reg)
    requires forall k :: k in cls.members ==> cls.members[k].name == k && cls.members[k].cls == cls.name
    ensures BuildFrom(cls, body).value.name == cls.name
    ensures BuildFrom(cls, body).value.reg.Keys == cls.reg.Keys + Codes(body)
    ensures WellKeyed(BuildFrom(cls, body).value.reg)
    ensures BuildFrom(cls, body).value.members.Keys == cls.members.Keys + PairNames(body)
    ensures var m := BuildFrom(cls, body).value.members;
            forall k :: k in m ==> m[k].name == k && m[k].cls == cls.name
    ensures var m := BuildFrom(cls, body).value.members;
            forall i :: 0 <= i < |body| && IsPair(body[i].1) && body[i].0 !in PairNames(body[i + 1..]) ==>
              body[i].0 in m && m[body[i].0] == EnumSymbol(cls.name, body[i].0, body[i].1.items[0], body[i].1.items[1])
  {
    BuildFromKeys(cls, body);
    BuildFromMemberKeys(cls, body);
    forall i | 0 <= i < |body| && IsPair(body[i].1) && body[i].0 !in PairNames(body[i + 1..])
      ensures body[i].0 in BuildFrom(cls, body).value.members
      ensures BuildFrom(cls, body).value.members[body[i].0] ==
                EnumSymbol(cls.name, body[i].0, body[i].1.items[0], body[i].1.items[1])
    {
      BuildFromMembers(cls, body, body[i].0);
    }
  }

  /**
   * A code is looked up as the last pair attribute that registers it: later
   * attributes overwrite earlier ones, and a base symbol stays unless the body
   * registers its code.
   */
  lemma {:induction false} BuildFromLastWins(cls: EnumClass, body: seq<(string, Attribute)>, c: string)
    requires BuildFrom(cls, body).Ok?
    ensures c !in Codes(body) && c in cls.reg ==> c in BuildFrom(cls, body).value.reg && BuildFrom(cls, body).value.reg[c] == cls.reg[c]
    ensures forall i :: 0 <= i < |body| && IsPair(body[i].1) && body[i].1.items[0] == c && c !in Codes(body[i + 1..]) ==>
              c in BuildFrom(cls, body).value.reg &&
              BuildFrom(cls, body).value.reg[c] == EnumSymbol(cls.name, body[i].0, c, body[i].1.items[1])
    decreases |body|
  {
    if body != [] {
      var (k, v) := body[0];
      var cls' := if IsPair(v)
        then cls.(reg := cls.reg[v.items[0] := EnumSymbol(cls.name, k, v.items[0], v.items[1])],
                  members := cls.members[k := EnumSymbol(cls.name, k, v.items[0], v.items[1])])
        else cls;
      assert BuildFrom(cls, body) == BuildFrom(cls', body[1..]);
      BuildFromLastWins(cls', body[1..], c);
      forall i | 0 <= i < |body| && IsPair(body[i].1) && body[i].1.items[0] == c && c !in Codes(body[i + 1..])
        ensures c in BuildFrom(cls, body).value.reg
        ensures BuildFrom(cls, body).value.reg[c] == EnumSymbol(cls.name, body[i].0, c, body[i].1.items[1])
      {
        if i > 0 {
          assert body[1..][i - 1] == body[i];
          assert body[1..][i - 1 + 1..] == body[i + 1..];
        } else {
          assert body[1..] == body[i + 1..];
        }
      }
    }
  }

  /** The registry and the members of a successfully created class. */
  lemma BuildRegistry(name: string, base: EnumClass, body: seq<(string, Attribute)>)
    requires Build(name, base, body).Ok?
    requires WellKeyed(base.reg)
    ensures Build(name, base, body).value.name == name
    ensures Build(name, base, body).value.reg.Keys == base.reg.Keys + Codes(body)
    ensures WellKeyed(Build(name, base, body).value.reg)
    ensures Build(name, base, body).value.members.Keys == PairNames(body)
    ensures var m := Build(name, base, body).value.members;
            forall k :: k in m ==> m[k].name == k && m[k].cls == name
    ensures var m := Build(name, base, body).value.members;
            forall i :: 0 <= i < |body| && IsPair(body[i].1) && body[i].0 !in PairNames(body[i + 1..]) ==>
              body[i].0 in m && m[body[i].0] == EnumSymbol(name, body[i].0, body[i].1.items[0], body[i].1.items[1])
  {
    BuildFromRegistry(EnumClass(name, base.reg, map[]), body);
  }

  /** `DeclEnum.from_string`: the registered symbol, or `ValueError` for any other string. */
  function FromString(cls: EnumClass, value: string): (r: Result<EnumSymbol, EnumError>)
    ensures r.Ok? <==> value in cls.reg
    ensures r.Ok? ==> r.value == cls.reg[value]
    ensures r.Err? ==> r.error == ValueError(cls.name, value)
  {
    if value in cls.reg then Ok(cls.reg[value]) else Err(ValueError(cls.name, value))
  }

  /** `DeclEnum.values`: the registered codes, exactly those `from_string` accepts. */
  function Values(cls: EnumClass): (r: set<string>)
    ensures forall c :: c in r <==> FromString(cls, c).Ok?
  {
    cls.reg.Keys
  }

  /** Python's `str.isspace` on one (ASCII) character. */
  predicate IsSpace(c: char) {
    c == ' ' || c == '\t' || c == '\n' || c == '\r' || c == '\U{0B}' || c == '\U{0C}'
  }

  predicate AllSpace(s: string) {
    forall i :: 0 <= i < |s| ==> IsSpace(s[i])
  }

  /** The number of leading whitespace characters. */
  function LeadingSpace(s: string): (n: nat)
    ensures n <= |s| && AllSpace(s[..n])
    ensures n < |s| ==> !IsSpace(s[n])
  {
    if s == [] || !IsSpace(s[0]) then 0 else 1 + LeadingSpace(s[1..])
  }

  /** The number of trailing whitespace characters. */
  function TrailingSpace(s: string): (n: nat)
    ensures n <= |s| && AllSpace(s[|s| - n..])
    ensures n < |s| ==> !IsSpace(s[|s| - 1 - n])
  {
    if s == [] || !IsSpace(s[|s| - 1]) then 0
    else
      var n := 1 + TrailingSpace(s[..|s| - 1]);
      assert s[|s| - n..] == s[..|s| - 1][|s| - n..] + [s[|s| - 1]];
      n
  }

  /** `str.strip()`: the string without its leading and trailing whitespace. */
  function Strip(s: string): (r: string)
    ensures r == [] || (!IsSpace(r[0]) && !IsSpace(r[|r| - 1]))
    ensures exists i, j :: 0 <= i <= j <= |s| && r == s[i..j] && AllSpace(s[..i]) && AllSpace(s[j..])
  {
    var i := LeadingSpace(s);
    var rest := s[i..];
    var t := TrailingSpace(rest);
    assert rest[|rest| - t..] == s[i + |rest| - t..];
    s[i..i + |rest| - t]
  }

  /** A string that has no surrounding whitespace. */
  predicate IsStripped(s: string) {
    s == [] || (!IsSpace(s[0]) && !IsSpace(s[|s| - 1]))
  }

  lemma LeadingSpacePadded(p: string, c: string)
    requires AllSpace(p)
    requires c == [] || !IsSpace(c[0])
    ensures LeadingSpace(p + c) == |p|
    decreases |p|
  {
    if p != [] {
      assert (p + c)[1..] == p[1..] + c;
      LeadingSpacePadded(p[1..], c);
    } else {
      assert p + c == c;
    }
  }

  lemma {:induction false} TrailingSpacePadded(c: string, q: string)
    requires AllSpace(q)
    requires c == [] || !IsSpace(c[|c| - 1])
    ensures TrailingSpace(c + q) == |q|
    decreases |q|
  {
    var s := c + q;
    if q != [] {
      var q' := q[..|q| - 1];
      assert s[|s| - 1] == q[|q| - 1];
      assert IsSpace(s[|s| - 1]);
      assert s[..|s| - 1] == c + q';
      assert AllSpace(q');
      TrailingSpacePadded(c, q');
      assert TrailingSpace(s) == 1 + TrailingSpace(s[..|s| - 1]);
    } else {
      assert s == c;
    }
  }

  /** Stripping removes exactly the whitespace padding around a stripped string. */
  lemma StripPadded(p: string, c: string, q: string)
    requires AllSpace(p) && AllSpace(q)
    requires IsStripped(c)
    ensures Strip(p + c + q) == c
  {
    var s := p + c + q;
    if c == [] {
      assert s == p + q;
      LeadingSpacePadded(p + q, []);
      assert p + q + [] == p + q;
      assert s[|s|..] == [];
      assert forall k :: 0 <= k < |p + q| ==> IsSpace((p + q)[k]);
    } else {
      assert s == p + (c + q);
      LeadingSpacePadded(p, c + q);
      assert s[|p|..] == c + q;
      TrailingSpacePadded(c, q);
      assert (c + q)[..|c|] == c;
    }
  }

  /** `DeclEnumType.process_bind_param`: a symbol is stored as its code. */
  function BindSymbol(value: Option<EnumSymbol>): (r: Option<string>)
    ensures value.None? <==> r.None?
    ensures r.Some? ==> r.value == value.value.value
  {
    match value
    case None => None
    case Some(sym) => Some(sym.value)
  }

  /** `DeclEnumType.process_result_value`: the stored code, stripped, looked up with `from_string`. */
  function LoadSymbol(cls: EnumClass, stored: Option<string>): (r: Result<Option<EnumSymbol>, EnumError>)
    ensures stored.None? ==> r == Ok(None)
    ensures stored.Some? ==> (r.Ok? <==> Strip(stored.value) in cls.reg)
    ensures stored.Some? && r.Ok? ==> r.value == Some(cls.reg[Strip(stored.value)])
    ensures r.Err? ==> r.error == ValueError(cls.name, Strip(stored.value))
  {
    match stored
    case None => Ok(None)
    case Some(s) =>
      match FromString(cls, Strip(s))
      case Ok(sym) => Ok(Some(sym))
      case Err(e) => Err(e)
  }

  /** Every registered symbol whose code has no surrounding whitespace survives storing and loading. */
  lemma SymbolRoundTrip(cls: EnumClass, sym: EnumSymbol)
    requires sym.value in cls.reg && cls.reg[sym.value] == sym
    requires IsStripped(sym.value)
    ensures LoadSymbol(cls, BindSymbol(Some(sym))) == Ok(Some(sym))
  {
    StripPadded([], sym.value, []);
    assert [] + sym.value + [] == sym.value;
  }

  /** A registered code padded with whitespace in the column still loads as its symbol. */
  lemma PaddedCodeLoads(cls: EnumClass, c: string, p: string, q: string)
    requires c in cls.reg && IsStripped(c)
    requires AllSpace(p) && AllSpace(q)
    ensures LoadSymbol(cls, Some(p + c + q)) == Ok(Some(cls.reg[c]))
  {
    StripPadded(p, c, q);
  }

  /** `DeclEnumType` names its check constraint "ck" followed by the enum name with "_x" for every capital X. */
  function ConstraintNameFrom(s: string): (r: string)
    ensures HasNoUpper(r)
    ensures |r| >= |s|
  {
    if s == [] then []
    else (if IsUpper(s[0]) then ['_', LowerChar(s[0])] else [s[0]]) + ConstraintNameFrom(s[1..])
  }

  function ConstraintName(enumName: string): (r: string)
    ensures |r| >= 2 + |enumName| && r[..2] == "ck"
    ensures HasNoUpper(r)
  {
    "ck" + ConstraintNameFrom(enumName)
  }

  lemma {:induction false} ConstraintNameFromAppend(a: string, b: string)
    ensures ConstraintNameFrom(a + b) == ConstraintNameFrom(a) + ConstraintNameFrom(b)
  {
    if a == [] {
      assert a + b == b;
    } else {
      assert (a + b)[1..] == a[1..] + b;
      ConstraintNameFromAppend(a[1..], b);
    }
  }

  /** The marked name has no capitals, and without its underscores it is the lower-cased name. */
  lemma {:induction false} ConstraintNameFromShape(s: string)
    requires HasNoUnderscore(s)
    ensures HasNoUpper(ConstraintNameFrom(s))
    ensures RemoveUnderscores(ConstraintNameFrom(s)) == Lower(s)
  {
    if s != [] {
      ConstraintNameFromShape(s[1..]);
      var head := if IsUpper(s[0]) then ['_', LowerChar(s[0])] else [s[0]];
      RemoveUnderscoresAppend(head, ConstraintNameFrom(s[1..]));
      assert RemoveUnderscores(head) == [LowerChar(s[0])] by {
        if IsUpper(s[0]) {
          assert head[1..] == [LowerChar(s[0])];
          assert [LowerChar(s[0])][1..] == [];
        } else {
          assert head[1..] == [];
        }
      }
      assert Lower(s) == [LowerChar(s[0])] + Lower(s[1..]);
    }
  }

  /** The constraint name of an enum without underscores: "ck", then its lower-cased name with underscores before former capitals. */
  lemma ConstraintNameShape(enumName: string)
    requires HasNoUnderscore(enumName)
    ensures HasNoUpper(ConstraintName(enumName))
    ensures RemoveUnderscores(ConstraintName(enumName)) == "ck" + Lower(enumName)
  {
    ConstraintNameFromShape(enumName);
    RemoveUnderscoresAppend("ck", ConstraintNameFrom(enumName));
  }

  lemma {:induction false} ConstraintNameFromLower(s: string)
    requires HasNoUpper(s)
    ensures ConstraintNameFrom(s) == s
  {
    if s != [] {
      ConstraintNameFromLower(s[1..]);
      assert s == [s[0]] + s[1..];
    }
  }

  lemma CapitalisedTail(w: string)
    requires IsCapitalisedWord(w)
    ensures HasNoUpper(w[1..])
    ensures Lower(w) == [LowerChar(w[0])] + w[1..]
  {
    var tail := w[1..];
    forall k | 0 <= k < |tail| ensures !IsUpper(tail[k]) {
      assert tail[k] == w[k + 1] && IsLower(w[k + 1]);
    }
    forall k | 0 <= k < |w| ensures Lower(w)[k] == ([LowerChar(w[0])] + tail)[k] {
      if k > 0 {
        assert IsLower(w[k]);
      }
    }
  }

  /** A capitalised word is marked once, before its capital. */
  lemma ConstraintNameFromWord(w: string)
    requires IsCapitalisedWord(w)
    ensures ConstraintNameFrom(w) == "_" + Lower(w)
  {
    CapitalisedTail(w);
    ConstraintNameFromLower(w[1..]);
    assert ConstraintNameFrom(w) == ['_', LowerChar(w[0])] + w[1..];
  }

  lemma {:induction false} ConstraintNameFromWords(ws: seq<string>)
    requires ws != []
    requires forall k :: 0 <= k < |ws| ==> IsCapitalisedWord(ws[k])
    ensures ConstraintNameFrom(Concat(ws)) == "_" + Lower(JoinWords(ws))
    decreases |ws|
  {
    var w, rest := ws[0], ws[1..];
    assert Concat(ws) == w + Concat(rest);
    ConstraintNameFromAppend(w, Concat(rest));
    ConstraintNameFromWord(w);
    if rest == [] {
      assert Concat(rest) == [] && JoinWords(ws) == w;
      assert ConstraintNameFrom(Concat(rest)) == [];
    } else {
      assert forall k :: 0 <= k < |rest| ==> IsCapitalisedWord(rest[k]) by {
        forall k | 0 <= k < |rest| ensures IsCapitalisedWord(rest[k]) {
          assert rest[k] == ws[k + 1];
        }
      }
      ConstraintNameFromWords(rest);
      var j := JoinWords(rest);
      assert JoinWords(ws) == w + "_" + j;
      LowerAppend(w + "_", j);
      LowerAppend(w, "_");
      assert Lower("_") == "_";
      Regroup("_", Lower(w), "_", Lower(j));
    }
  }

  lemma CkPrefix(x: string, l: string)
    requires x == "_" + l
    ensures "ck" + x == "ck_" + l
  {
    assert "ck" + x == "ck" + "_" + l;
  }

  /**
   * For an enum named by capitalised words, the constraint is named "ck_"
   * followed by the words lower-cased and joined by underscores, which is the
   * display name the mapped classes derive from the same name.
   */
  lemma ConstraintNameOfWords(ws: seq<string>)
    requires ws != []
    requires forall k :: 0 <= k < |ws| ==> IsCapitalisedWord(ws[k])
    ensures ConstraintName(Concat(ws)) == "ck_" + Lower(JoinWords(ws))
  {
    ConstraintNameFromWords(ws);
    CkPrefix(ConstraintNameFrom(Concat(ws)), Lower(JoinWords(ws)));
  }

  /** The same name is the display name with "ck_" before it. */
  lemma ConstraintNameIsDisplayName(ws: seq<string>)
    requires ws != []
    requires forall k :: 0 <= k < |ws| ==> IsCapitalisedWord(ws[k])
    ensures ConstraintName(Concat(ws)) == "ck_" + DisplayName(Concat(ws))
  {
    ConstraintNameOfWords(ws);
    CamelCaseDisplayName(ws);
  }
}
