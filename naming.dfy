/**
 * How a mapped class gets its names: the display name (CamelCase split into
 * snake_case words, then lower-cased), the table ("collection") name that
 * pluralises it unless the class overrides it, and the tag discriminator
 * (the class name lower-cased, without word splitting).
 *
 * Character classes are ASCII, as those of the regular expression are.
 */
module Naming {
  import opened Wrappers

  predicate IsUpper(c: char) { 'A' <= c <= 'Z' }

  predicate IsLower(c: char) { 'a' <= c <= 'z' }

  /** ASCII lower-casing of one character: letters A-Z map to a-z, all else is kept. */
  function LowerChar(c: char): (d: char)
    ensures !IsUpper(d)
    ensures IsUpper(c) ==> IsLower(d) && d as int == c as int + 32
    ensures !IsUpper(c) ==> d == c
  {
    if IsUpper(c) then (c as int + 32) as char else c
  }

  /** `str.lower()` on an ASCII string. */
  function Lower(s: string): (r: string)
    ensures |r| == |s|
    ensures forall i :: 0 <= i < |s| ==> r[i] == LowerChar(s[i])
    ensures forall i :: 0 <= i < |r| ==> !IsUpper(r[i])
  {
    seq(|s|, i requires 0 <= i < |s| => LowerChar(s[i]))
  }

  predicate HasNoUpper(s: string) {
    forall i :: 0 <= i < |s| ==> !IsUpper(s[i])
  }

  predicate HasNoUnderscore(s: string) {
    forall i :: 0 <= i < |s| ==> s[i] != '_'
  }

  /**
   * The regular expression `((?<=[a-z])[A-Z]|(?<!\A)[A-Z](?=[a-z]))` matches
   * the single character at index i exactly when it is an upper-case letter
   * that is not the first character and whose left or right neighbour (in the
   * original string) is a lower-case letter.
   */
  predicate StartsWord(s: string, i: nat)
    requires i < |s|
  {
    0 < i && IsUpper(s[i]) && (IsLower(s[i - 1]) || (i + 1 < |s| && IsLower(s[i + 1])))
  }

  /** The substitution `_\1` applied from index i on: an underscore before every matched character. */
  function MarkWordsFrom(s: string, i: nat): string
    requires i <= |s|
    decreases |s| - i
  {
    if i == |s| then []
    else if StartsWord(s, i) then ['_', s[i]] + MarkWordsFrom(s, i + 1)
    else [s[i]] + MarkWordsFrom(s, i + 1)
  }

  /** The whole `re.sub` step. */
  function MarkWords(s: string): string {
    MarkWordsFrom(s, 0)
  }

  /** `__display_name__`: the marked class name, lower-cased. */
  function DisplayName(className: string): (r: string)
    ensures HasNoUpper(r)
    ensures |r| >= |className|
    ensures |className| > 0 && className[0] != '_' ==> |r| > 0 && r[0] != '_'
    ensures |className| > 0 ==> r[0] == LowerChar(className[0])
  {
    MarkWordsLength(className, 0);
    Lower(MarkWords(className))
  }

  /** The tag discriminator of a taggable class: `cls.__name__.lower()`. */
  function Discriminator(className: string): (r: string)
    ensures |r| == |className|
    ensures HasNoUpper(r)
  {
    Lower(className)
  }

  /** A mapped class as far as its naming goes: its name and an optional `__collection_name__` override. */
  datatype ModelClass = ModelClass(name: string, collectionOverride: Option<string>)

  /** `__collection_name__`, which `__tablename__` returns: the override, else the display name plus "s". */
  function CollectionName(cls: ModelClass): (r: string)
    ensures cls.collectionOverride.Some? ==> r == cls.collectionOverride.value
    ensures cls.collectionOverride.None? ==>
              |r| > 0 && r[|r| - 1] == 's' && r[..|r| - 1] == DisplayName(cls.name)
  {
    match cls.collectionOverride
    case Some(n) => n
    case None => DisplayName(cls.name) + "s"
  }

  /** Every character except the underscores, in order. */
  function RemoveUnderscores(s: string): string {
    if s == [] then []
    else (if s[0] == '_' then [] else [s[0]]) + RemoveUnderscores(s[1..])
  }

  lemma {:induction false} RemoveUnderscoresAppend(a: string, b: string)
    ensures RemoveUnderscores(a + b) == RemoveUnderscores(a) + RemoveUnderscores(b)
  {
    if a == [] {
      assert a + b == b;
    } else {
      assert (a + b)[1..] == a[1..] + b;
      RemoveUnderscoresAppend(a[1..], b);
    }
  }

  lemma {:induction false} MarkWordsLength(s: string, i: nat)
    requires i <= |s|
    ensures |MarkWordsFrom(s, i)| >= |s| - i
    ensures i < |s| && !StartsWord(s, i) ==> MarkWordsFrom(s, i)[0] == s[i]
    decreases |s| - i
  {
    if i < |s| {
      MarkWordsLength(s, i + 1);
    }
  }

  /** Removing the underscores from the marked suffix gives back the suffix of the original. */
  lemma {:induction false} MarkWordsFromUnmarked(s: string, i: nat)
    requires i <= |s|
    requires HasNoUnderscore(s)
    ensures RemoveUnderscores(MarkWordsFrom(s, i)) == s[i..]
    decreases |s| - i
  {
    if i < |s| {
      var c := s[i];
      var pre := if StartsWord(s, i) then ['_', c] else [c];
      assert MarkWordsFrom(s, i) == pre + MarkWordsFrom(s, i + 1);
      RemoveUnderscoresAppend(pre, MarkWordsFrom(s, i + 1));
      MarkWordsFromUnmarked(s, i + 1);
      RemoveUnderscoresMark(c);
      assert s[i..] == [c] + s[i + 1..];
    }
  }

  /** A character other than `_`, marked or not, is all that is left once underscores are removed. */
  lemma RemoveUnderscoresMark(c: char)
    requires c != '_'
    ensures RemoveUnderscores([c]) == [c]
    ensures RemoveUnderscores(['_', c]) == [c]
  {
    assert [c][1..] == [];
    assert ['_', c][1..] == [c];
  }

  lemma {:induction false} LowerRemoveUnderscores(s: string)
    ensures RemoveUnderscores(Lower(s)) == Lower(RemoveUnderscores(s))
  {
    if s != [] {
      assert Lower(s)[1..] == Lower(s[1..]);
      LowerRemoveUnderscores(s[1..]);
      var head := if s[0] == '_' then [] else [s[0]];
      assert Lower(head + RemoveUnderscores(s[1..])) == Lower(head) + Lower(RemoveUnderscores(s[1..]));
    }
  }

  /**
   * The inserted underscores are the only change besides lower-casing: for a
   * class name without underscores of its own, deleting the underscores of
   * the display name gives the lower-cased class name, which is the tag
   * discriminator.
   */
  lemma DisplayNameUnsplit(className: string)
    requires HasNoUnderscore(className)
    ensures RemoveUnderscores(DisplayName(className)) == Lower(className)
    ensures RemoveUnderscores(DisplayName(className)) == Discriminator(className)
  {
    LowerRemoveUnderscores(MarkWords(className));
    MarkWordsFromUnmarked(className, 0);
    assert className[0..] == className;
  }

  /** No underscore is inserted into a string without upper-case letters. */
  lemma {:induction false} MarkWordsFromNoUpper(s: string, i: nat)
    requires i <= |s|
    requires HasNoUpper(s)
    ensures MarkWordsFrom(s, i) == s[i..]
    decreases |s| - i
  {
    if i < |s| {
      MarkWordsFromNoUpper(s, i + 1);
      assert s[i..] == [s[i]] + s[i + 1..];
    }
  }

  /** Deriving the display name twice changes nothing: a display name is its own display name. */
  lemma DisplayNameIdempotent(className: string)
    ensures DisplayName(DisplayName(className)) == DisplayName(className)
  {
    var d := DisplayName(className);
    MarkWordsFromNoUpper(d, 0);
    assert d[0..] == d;
    assert Lower(d) == d;
  }

  /** A capitalised word: one upper-case letter followed by at least one lower-case letter. */
  predicate IsCapitalisedWord(w: string) {
    |w| >= 2 && IsUpper(w[0]) && forall k :: 1 <= k < |w| ==> IsLower(w[k])
  }

  /** The words written one after the other, as in a CamelCase class name. */
  function Concat(ws: seq<string>): string {
    if ws == [] then [] else ws[0] + Concat(ws[1..])
  }

  /** The words separated by underscores. */
  function JoinWords(ws: seq<string>): string {
    if ws == [] then []
    else if |ws| == 1 then ws[0]
    else ws[0] + "_" + JoinWords(ws[1..])
  }

  lemma LowerAppend(a: string, b: string)
    ensures Lower(a + b) == Lower(a) + Lower(b)
  {
    assert forall i :: 0 <= i < |a + b| ==> Lower(a + b)[i] == (Lower(a) + Lower(b))[i];
  }

  /** Characters at which no word starts are copied and never marked. */
  lemma {:induction false} MarkWordsFromUnmarkedRun(s: string, j: nat, k: nat)
    requires j <= k <= |s|
    requires forall m :: j <= m < k ==> !StartsWord(s, m)
    ensures MarkWordsFrom(s, j) == s[j..k] + MarkWordsFrom(s, k)
    decreases k - j
  {
    if j < k {
      MarkWordsFromUnmarkedRun(s, j + 1, k);
      assert MarkWordsFrom(s, j) == [s[j]] + MarkWordsFrom(s, j + 1);
      assert s[j..k] == [s[j]] + s[j + 1..k];
    }
  }

  lemma Regroup<T>(a: seq<T>, b: seq<T>, c: seq<T>, d: seq<T>)
    ensures a + b + (c + d) == a + (b + c + d)
  {
  }

  lemma SplitAt(s: string, i: nat, w: string, rest: string)
    requires i <= |s|
    requires s[i..] == w + rest
    ensures i + |w| <= |s| && s[i..i + |w|] == w && s[i + |w|..] == rest
  {
    assert s[i..][..|w|] == w;
    assert s[i..][|w|..] == rest;
  }

  /** A capitalised word at index i is copied whole, with an underscore before it unless i is 0. */
  lemma MarkWordsFromWord(s: string, i: nat, w: string)
    requires i + |w| <= |s| && s[i..i + |w|] == w
    requires IsCapitalisedWord(w)
    ensures MarkWordsFrom(s, i) == (if i > 0 then "_" else "") + w + MarkWordsFrom(s, i + |w|)
  {
    var n := i + |w|;
    assert s[i] == w[0] && s[i + 1] == w[1];
    assert StartsWord(s, i) <==> i > 0;
    forall m | i + 1 <= m < n ensures !StartsWord(s, m) {
      assert s[m] == w[m - i];
    }
    MarkWordsFromUnmarkedRun(s, i + 1, n);
    assert [s[i]] + s[i + 1..n] == w by {
      assert s[i..n] == [s[i]] + s[i + 1..n];
    }
  }

  /**
   * From index i, a run of capitalised words is marked with an underscore
   * before every word, except before the very first character of the name.
   */
  lemma {:induction false} MarkWordsFromWords(s: string, i: nat, ws: seq<string>)
    requires i <= |s|
    requires s[i..] == Concat(ws)
    requires forall k :: 0 <= k < |ws| ==> IsCapitalisedWord(ws[k])
    ensures MarkWordsFrom(s, i) == (if i > 0 && ws != [] then "_" else "") + JoinWords(ws)
    decreases |ws|
  {
    if ws == [] {
      assert |s[i..]| == 0;
    } else {
      var w, rest := ws[0], ws[1..];
      var pre := if i > 0 then "_" else "";
      SplitAt(s, i, w, Concat(rest));
      MarkWordsFromWord(s, i, w);
      assert forall k :: 0 <= k < |rest| ==> IsCapitalisedWord(rest[k]) by {
        forall k | 0 <= k < |rest| ensures IsCapitalisedWord(rest[k]) {
          assert rest[k] == ws[k + 1];
        }
      }
      MarkWordsFromWords(s, i + |w|, rest);
      if rest == [] {
        assert MarkWordsFrom(s, i + |w|) == [];
        assert MarkWordsFrom(s, i) == pre + w;
      } else {
        assert i + |w| > 0 && rest != [];
        assert JoinWords(ws) == w + "_" + JoinWords(rest);
        Regroup(pre, w, "_", JoinWords(rest));
      }
    }
  }

  /**
   * A class name made of capitalised words displays as those words,
   * lower-cased and joined by underscores ("AllocatableIp" is
   * "allocatable_ip", "MacPool" is "mac_pool").
   */
  lemma CamelCaseDisplayName(ws: seq<string>)
    requires forall k :: 0 <= k < |ws| ==> IsCapitalisedWord(ws[k])
    ensures DisplayName(Concat(ws)) == Lower(JoinWords(ws))
  {
    var s := Concat(ws);
    assert s[0..] == s;
    MarkWordsFromWords(s, 0, ws);
    assert MarkWords(s) == JoinWords(ws) by {
      assert "" + JoinWords(ws) == JoinWords(ws);
    }
  }

  /** No capital of a run of capitals followed by a capital starts a word. */
  lemma AcronymUnmarked(s: string, n: nat)
    requires n < |s|
    requires forall k :: 0 <= k <= n ==> IsUpper(s[k])
    ensures MarkWordsFrom(s, 0) == s[..n] + MarkWordsFrom(s, n)
  {
    forall m | 0 <= m < n ensures !StartsWord(s, m) {
      assert IsUpper(s[m + 1]);
      if 0 < m {
        assert IsUpper(s[m - 1]);
      }
    }
    MarkWordsFromUnmarkedRun(s, 0, n);
    assert s[0..n] == s[..n];
  }

  /** A run of capitals followed by capitalised words is marked only before the first word. */
  lemma AcronymMarkWords(a: string, ws: seq<string>)
    requires |a| >= 1 && forall k :: 0 <= k < |a| ==> IsUpper(a[k])
    requires ws != [] && forall k :: 0 <= k < |ws| ==> IsCapitalisedWord(ws[k])
    ensures MarkWords(a + Concat(ws)) == a + ("_" + JoinWords(ws))
  {
    var s := a + Concat(ws);
    AcronymSplit(a, ws);
    AcronymUnmarked(s, |a|);
    MarkWordsFromWords(s, |a|, ws);
  }

  lemma AcronymSplit(a: string, ws: seq<string>)
    requires forall k :: 0 <= k < |a| ==> IsUpper(a[k])
    requires ws != [] && IsCapitalisedWord(ws[0])
    ensures var s := a + Concat(ws);
            |a| < |s| && (forall k :: 0 <= k <= |a| ==> IsUpper(s[k])) &&
            s[..|a|] == a && s[|a|..] == Concat(ws)
  {
    var s := a + Concat(ws);
    assert Concat(ws) == ws[0] + Concat(ws[1..]);
    assert s[|a|] == ws[0][0];
  }

  /** Lower-casing keeps an underscore between two parts. */
  lemma LowerAround(a: string, b: string)
    ensures Lower(a + ("_" + b)) == Lower(a) + "_" + Lower(b)
  {
    LowerAppend(a, "_" + b);
    LowerAppend("_", b);
    var u := Lower("_");
    assert u == "_" by {
      assert |u| == 1 && u[0] == LowerChar('_');
    }
  }

  /**
   * The look-ahead alternative of the rule: inside a run of capitals
   * followed by capitalised words ("IPAddress", "MACPool") no capital is
   * marked, since neither neighbour is lower-case, except the last one, which
   * begins the first word. The run displays lower-cased and unsplit.
   */
  lemma AcronymDisplayName(a: string, ws: seq<string>)
    requires |a| >= 1 && forall k :: 0 <= k < |a| ==> IsUpper(a[k])
    requires ws != [] && forall k :: 0 <= k < |ws| ==> IsCapitalisedWord(ws[k])
    ensures DisplayName(a + Concat(ws)) == Lower(a) + "_" + Lower(JoinWords(ws))
  {
    AcronymMarkWords(a, ws);
    LowerAround(a, JoinWords(ws));
  }
}
