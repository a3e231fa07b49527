/** The digest of search parameters: sorted keys, each entry written with explicit lengths. A Go
    string is a Dafny string with one character per byte. */
module ExtDigest {

  /** Parameters that do not shape the result. */
  const EXCLUDED: set<string> := {"_ctx", "refresh", "_depth", "_main_cache_key"}

  /** Either the fixed answer for "no parameters" or the text handed to the hash. */
  datatype Digest = NoExt | Hashed(text: string)

  /** The entries that count; values are as rendered by `%v`. */
  function Kept(ext: map<string, string>): map<string, string> {
    map k | k in ext && k !in EXCLUDED :: ext[k]
  }

  // ----- decimal lengths

  function Digit(d: nat): char
    requires d < 10
  {
    ('0' as int + d) as char
  }

  function Itoa(n: nat): (s: string)
    ensures s != ""
    ensures forall i | 0 <= i < |s| :: '0' <= s[i] <= '9'
  {
    if n < 10 then [Digit(n)] else Itoa(n / 10) + [Digit(n % 10)]
  }

  function Value(s: string): int {
    if s == "" then 0 else Value(s[..|s| - 1]) * 10 + (s[|s| - 1] as int - '0' as int)
  }

  lemma {:induction false} ValueOfItoa(n: nat)
    ensures Value(Itoa(n)) == n
    decreases n
  {
    var s := Itoa(n);
    if n < 10 {
      assert s[..0] == "";
    } else {
      ValueOfItoa(n / 10);
      assert s[..|s| - 1] == Itoa(n / 10);
    }
  }

  // ----- one entry

  /** Length, colon, content. */
  function Prefixed(s: string): string {
    Itoa(|s|) + ":" + s
  }

  lemma SplitAtColon(a: string, b: string, x: string, y: string)
    requires forall i | 0 <= i < |a| :: a[i] != ':'
    requires forall i | 0 <= i < |b| :: b[i] != ':'
    requires a + ":" + x == b + ":" + y
    ensures a == b && x == y
  {
    var s := a + ":" + x;
    assert s[|a|] == ':' && s[|b|] == ':';
    assert forall i | 0 <= i < |a| :: s[i] == a[i];
    assert forall i | 0 <= i < |b| :: s[i] == b[i];
    assert |a| == |b|;
    assert a == s[..|a|] && b == s[..|b|];
    assert x == s[|a| + 1..] && y == s[|b| + 1..];
  }

  lemma PrefixedUnique(s: string, t: string, x: string, y: string)
    requires Prefixed(s) + x == Prefixed(t) + y
    ensures s == t && x == y
  {
    assert Prefixed(s) + x == Itoa(|s|) + ":" + (s + x);
    assert Prefixed(t) + y == Itoa(|t|) + ":" + (t + y);
    SplitAtColon(Itoa(|s|), Itoa(|t|), s + x, t + y);
    ValueOfItoa(|s|);
    ValueOfItoa(|t|);
    assert s == (s + x)[..|s|] && t == (t + y)[..|t|];
    assert x == (s + x)[|s|..] && y == (t + y)[|t|..];
  }

  function Entry(k: string, v: string): string {
    Prefixed(k) + "=" + Prefixed(v) + ","
  }

  function EncodeKeys(keys: seq<string>, m: map<string, string>): string
    requires forall i | 0 <= i < |keys| :: keys[i] in m
  {
    if keys == [] then "" else Entry(keys[0], m[keys[0]]) + EncodeKeys(keys[1..], m)
  }

  lemma EntrySplits(k: string, v: string, x: string)
    ensures Entry(k, v) + x == Prefixed(k) + ("=" + (Prefixed(v) + ("," + x)))
  {
  }

  lemma DropChar(c: char, x: string, y: string)
    requires [c] + x == [c] + y
    ensures x == y
  {
    assert x == ([c] + x)[1..] && y == ([c] + y)[1..];
  }

  lemma EntryUnique(k: string, v: string, x: string, l: string, w: string, y: string)
    requires Entry(k, v) + x == Entry(l, w) + y
    ensures k == l && v == w && x == y
  {
    var restV, restW := Prefixed(v) + ("," + x), Prefixed(w) + ("," + y);
    EntrySplits(k, v, x);
    EntrySplits(l, w, y);
    PrefixedUnique(k, l, "=" + restV, "=" + restW);
    DropChar('=', restV, restW);
    PrefixedUnique(v, w, "," + x, "," + y);
    DropChar(',', x, y);
  }

  lemma EncodesToNothing(keys: seq<string>, m: map<string, string>)
    requires forall i | 0 <= i < |keys| :: keys[i] in m
    ensures EncodeKeys(keys, m) == "" <==> keys == []
  {
    if keys != [] {
      assert |Entry(keys[0], m[keys[0]])| >= 1;
    }
  }

  /** Unique decodability: the text determines the keys, their order and their values. */
  lemma {:induction false} EncodeKeysInjective(
    keys: seq<string>, m: map<string, string>, others: seq<string>, n: map<string, string>)
    requires forall i | 0 <= i < |keys| :: keys[i] in m
    requires forall i | 0 <= i < |others| :: others[i] in n
    requires EncodeKeys(keys, m) == EncodeKeys(others, n)
    ensures keys == others
    ensures forall i | 0 <= i < |keys| :: m[keys[i]] == n[keys[i]]
    decreases |keys|
  {
    EncodesToNothing(keys, m);
    EncodesToNothing(others, n);
    if keys != [] {
      EntryUnique(keys[0], m[keys[0]], EncodeKeys(keys[1..], m), others[0], n[others[0]], EncodeKeys(others[1..], n));
      EncodeKeysInjective(keys[1..], m, others[1..], n);
      assert keys == [keys[0]] + keys[1..] && others == [others[0]] + others[1..];
      forall i | 0 <= i < |keys|
        ensures m[keys[i]] == n[keys[i]]
      {
        assert i > 0 ==> keys[i] == keys[1..][i - 1];
      }
    }
  }

  // ----- sorted keys

  /** Byte-wise lexicographic order. */
  predicate Less(a: string, b: string) {
    if b == "" then false
    else if a == "" then true
    else a[0] < b[0] || (a[0] == b[0] && Less(a[1..], b[1..]))
  }

  lemma {:induction false} LessTransitive(a: string, b: string, c: string)
    requires Less(a, b) && Less(b, c)
    ensures Less(a, c)
    decreases |a|
  {
    if a != "" && a[0] == b[0] == c[0] {
      LessTransitive(a[1..], b[1..], c[1..]);
    }
  }

  lemma {:induction false} LessIrreflexive(a: string)
    ensures !Less(a, a)
  {
    if a != "" {
      LessIrreflexive(a[1..]);
    }
  }

  lemma {:induction false} LessTotal(a: string, b: string)
    ensures a == b || Less(a, b) || Less(b, a)
    ensures !(Less(a, b) && Less(b, a))
    decreases |a|
  {
    if a != "" && b != "" {
      LessTotal(a[1..], b[1..]);
      if a[0] == b[0] && a[1..] == b[1..] {
        assert a == [a[0]] + a[1..] && b == [b[0]] + b[1..];
      }
    }
  }

  predicate Ascending(keys: seq<string>) {
    forall i, j | 0 <= i < j < |keys| :: Less(keys[i], keys[j])
  }

  ghost function Elements(keys: seq<string>): set<string> {
    set k | k in keys
  }

  /** `Sorted(keys, s)`: the ascending list of the set `s`. */
  ghost predicate IsSorting(keys: seq<string>, s: set<string>) {
    Ascending(keys) && Elements(keys) == s
  }

  lemma TailSorting(keys: seq<string>, s: set<string>)
    requires IsSorting(keys, s) && keys != []
    ensures IsSorting(keys[1..], s - {keys[0]})
  {
    LessIrreflexive(keys[0]);
    assert keys == [keys[0]] + keys[1..];
    forall k
      ensures k in Elements(keys[1..]) <==> k in s - {keys[0]}
    {
      if k in keys[1..] {
        var i :| 0 <= i < |keys[1..]| && keys[1..][i] == k;
        assert keys[i + 1] == k && Less(keys[0], k);
      }
    }
  }

  lemma EmptySorting(keys: seq<string>, s: set<string>)
    requires IsSorting(keys, s)
    ensures keys == [] <==> s == {}
  {
    if keys != [] {
      assert keys[0] in Elements(keys);
    }
  }

  lemma {:induction false} SortingUnique(a: seq<string>, b: seq<string>, s: set<string>)
    requires IsSorting(a, s) && IsSorting(b, s)
    ensures a == b
    decreases |a|
  {
    EmptySorting(a, s);
    EmptySorting(b, s);
    if a != [] {
      assert a[0] in Elements(a);
      assert b[0] in Elements(b);
      LessTotal(a[0], b[0]);
      TailSorting(a, s);
      TailSorting(b, s);
      SortingUnique(a[1..], b[1..], s - {a[0]});
      assert a == [a[0]] + a[1..] && b == [b[0]] + b[1..];
    }
  }

  lemma InsertedAscends(keys: seq<string>, k: string, i: nat)
    requires Ascending(keys) && i <= |keys|
    requires forall j | 0 <= j < i :: Less(keys[j], k)
    requires forall j | i <= j < |keys| :: Less(k, keys[j])
    ensures Ascending(keys[..i] + [k] + keys[i..])
  {
  }

  lemma InsertedElements(keys: seq<string>, k: string, i: nat)
    requires i <= |keys|
    ensures Elements(keys[..i] + [k] + keys[i..]) == Elements(keys) + {k}
  {
    assert keys == keys[..i] + keys[i..];
  }

  lemma AllAbove(keys: seq<string>, k: string, i: nat)
    requires Ascending(keys) && k !in keys && i < |keys| && !Less(keys[i], k)
    ensures forall j | i <= j < |keys| :: Less(k, keys[j])
  {
    LessTotal(keys[i], k);
    forall j | i < j < |keys|
      ensures Less(k, keys[j])
    {
      LessTransitive(k, keys[i], keys[j]);
    }
  }

  method Insert(keys: seq<string>, k: string) returns (r: seq<string>)
    requires Ascending(keys) && k !in keys
    ensures IsSorting(r, Elements(keys) + {k})
  {
    var i := 0;
    while i < |keys| && Less(keys[i], k)
      invariant 0 <= i <= |keys|
      invariant forall j | 0 <= j < i :: Less(keys[j], k)
    {
      i := i + 1;
    }
    r := keys[..i] + [k] + keys[i..];
    if i < |keys| {
      AllAbove(keys, k, i);
    }
    InsertedAscends(keys, k, i);
    InsertedElements(keys, k, i);
  }

  method SortStrings(keys: seq<string>) returns (r: seq<string>)
    requires forall i, j | 0 <= i < j < |keys| :: keys[i] != keys[j]
    ensures IsSorting(r, Elements(keys))
  {
    r := [];
    for i := 0 to |keys|
      invariant IsSorting(r, Elements(keys[..i]))
    {
      assert keys[i] in r <==> keys[i] in Elements(r);
      assert keys[..i + 1] == keys[..i] + [keys[i]];
      assert Elements(keys[..i + 1]) == Elements(keys[..i]) + {keys[i]};
      r := Insert(r, keys[i]);
    }
    assert keys[..|keys|] == keys;
  }

  // ----- the digest

  ghost predicate IsTextOf(keys: seq<string>, m: map<string, string>, text: string) {
    IsSorting(keys, m.Keys) && (forall i | 0 <= i < |keys| :: keys[i] in m) && text == EncodeKeys(keys, m)
  }

  /** What `ExtDigest` hashes: the encoding of the kept entries in ascending key order. */
  ghost predicate DigestOf(ext: map<string, string>, d: Digest) {
    if Kept(ext) == map[] then d == NoExt else d.Hashed? && exists keys :: IsTextOf(keys, Kept(ext), d.text)
  }

  lemma TextEqualIff(
    keys: seq<string>, m: map<string, string>, x: string, others: seq<string>, n: map<string, string>, y: string)
    requires IsTextOf(keys, m, x) && IsTextOf(others, n, y)
    ensures x == y <==> m == n
  {
    if m == n {
      SortingUnique(keys, others, m.Keys);
    }
    if x == y {
      EncodeKeysInjective(keys, m, others, n);
      assert m.Keys == n.Keys;
      forall k | k in m.Keys
        ensures m[k] == n[k]
      {
        assert k in Elements(keys);
      }
    }
  }

  /** The keys that count, in whatever order the map is iterated. */
  method CollectKeys(ext: map<string, string>) returns (keys: seq<string>)
    ensures forall i, j | 0 <= i < j < |keys| :: keys[i] != keys[j]
    ensures Elements(keys) == Kept(ext).Keys
  {
    keys := [];
    var todo := ext.Keys;
    while todo != {}
      invariant todo <= ext.Keys
      invariant forall i, j | 0 <= i < j < |keys| :: keys[i] != keys[j]
      invariant Elements(keys) == Kept(ext).Keys - todo
      decreases |todo|
    {
      var k :| k in todo;
      assert k in keys <==> k in Elements(keys);
      todo := todo - {k};
      if k !in EXCLUDED {
        assert Elements(keys + [k]) == Elements(keys) + {k};
        keys := keys + [k];
      }
    }
  }

  method WriteEntries(keys: seq<string>, ext: map<string, string>) returns (text: string)
    requires forall i | 0 <= i < |keys| :: keys[i] in Kept(ext)
    ensures text == EncodeKeys(keys, Kept(ext))
  {
    text := "";
    ghost var m := Kept(ext);
    assert keys[0..] == keys;
    for i := 0 to |keys|
      invariant text + EncodeKeys(keys[i..], m) == EncodeKeys(keys, m)
    {
      var k := keys[i];
      assert keys[i..][0] == k && keys[i..][1..] == keys[i + 1..];
      var val := ext[k];
      assert text + (Entry(k, val) + EncodeKeys(keys[i + 1..], m))
          == text + Entry(k, val) + EncodeKeys(keys[i + 1..], m);
      text := text + Entry(k, val);
    }
    assert keys[|keys|..] == [] && text + "" == text;
  }

  /** `ExtDigest` up to the hash. */
  method ComputeDigest(ext: map<string, string>) returns (d: Digest)
    ensures DigestOf(ext, d)
  {
    ghost var m := Kept(ext);
    var keys := CollectKeys(ext);
    if keys == [] {
      assert m.Keys == {};
      return NoExt;
    }
    assert keys[0] in Elements(keys);
    var sorted := SortStrings(keys);
    assert forall i | 0 <= i < |sorted| :: sorted[i] in Elements(sorted);
    var text := WriteEntries(sorted, ext);
    assert IsTextOf(sorted, m, text);
    d := Hashed(text);
  }

  /** Canonical and injective: two parameter maps are hashed alike exactly when they agree on every key
      but the four that do not shape the result. */
  lemma DigestEqualIff(a: map<string, string>, b: map<string, string>, d: Digest, e: Digest)
    requires DigestOf(a, d) && DigestOf(b, e)
    ensures d == e <==>
              forall k | k !in {"_ctx", "refresh", "_depth", "_main_cache_key"} ::
                (k in a <==> k in b) && (k in a ==> a[k] == b[k])
  {
    if Kept(a) != map[] && Kept(b) != map[] {
      var keys :| IsTextOf(keys, Kept(a), d.text);
      var others :| IsTextOf(others, Kept(b), e.text);
      TextEqualIff(keys, Kept(a), d.text, others, Kept(b), e.text);
    }
    KeptEqualIff(a, b);
  }

  lemma KeptEqualIff(a: map<string, string>, b: map<string, string>)
    ensures Kept(a) == Kept(b) <==>
              forall k | k !in {"_ctx", "refresh", "_depth", "_main_cache_key"} ::
                (k in a <==> k in b) && (k in a ==> a[k] == b[k])
  {
    forall k
      ensures k in Kept(a) <==> k in a && k !in {"_ctx", "refresh", "_depth", "_main_cache_key"}
      ensures k in Kept(b) <==> k in b && k !in {"_ctx", "refresh", "_depth", "_main_cache_key"}
    {
    }
    if Kept(a) == Kept(b) {
      forall k | k !in {"_ctx", "refresh", "_depth", "_main_cache_key"}
        ensures (k in a <==> k in b) && (k in a ==> a[k] == b[k])
      {
        assert k in Kept(a) <==> k in Kept(b);
      }
    }
  }

  /** Nothing is hashed exactly when no other key is there. */
  lemma NoExtIff(ext: map<string, string>, d: Digest)
    requires DigestOf(ext, d)
    ensures d == NoExt <==> ext.Keys <= {"_ctx", "refresh", "_depth", "_main_cache_key"}
  {
    if k :| k in ext.Keys && k !in {"_ctx", "refresh", "_depth", "_main_cache_key"} {
      assert k in Kept(ext);
    }
  }

  /** Up to `i` the strings agree, and there the first one ends or has the smaller byte. */
  predicate SplitAt(a: string, b: string, i: nat) {
    i <= |a| && i < |b| && a[..i] == b[..i] && (i < |a| ==> a[i] < b[i])
  }

  predicate SameHead(a: string, b: string) {
    a != "" && b != "" && a[0] == b[0]
  }

  lemma SameStart(a: string, b: string, i: nat)
    ensures SplitAt(a, b, i) ==> i == 0 || SameHead(a, b)
  {
    if SplitAt(a, b, i) && i > 0 {
      assert a[0] == a[..i][0] && b[0] == b[..i][0];
    }
  }

  lemma SplitShift(a: string, b: string, i: nat)
    requires a != "" && b != "" && a[0] == b[0]
    ensures SplitAt(a, b, i + 1) <==> SplitAt(a[1..], b[1..], i)
  {
    if i < |a| && i + 1 < |b| {
      assert a[..i + 1] == [a[0]] + a[1..][..i] && b[..i + 1] == [b[0]] + b[1..][..i];
      assert a[..i + 1][1..] == a[1..][..i] && b[..i + 1][1..] == b[1..][..i];
    }
  }

  /** The order of the keys is decided at their first difference. */
  lemma {:induction false} LessIff(a: string, b: string)
    ensures Less(a, b) <==> exists i: nat :: SplitAt(a, b, i)
    decreases |a|
  {
    if a == "" || b == "" || a[0] != b[0] {
      assert b != "" && (a == "" || a[0] < b[0]) ==> SplitAt(a, b, 0);
      forall i: nat
        ensures SplitAt(a, b, i) ==> i == 0 || SameHead(a, b)
      {
        SameStart(a, b, i);
      }
    } else {
      LessIff(a[1..], b[1..]);
      if i: nat :| SplitAt(a, b, i) {
        SplitShift(a, b, i - 1);
      }
      if i: nat :| SplitAt(a[1..], b[1..], i) {
        SplitShift(a, b, i);
      }
    }
  }

  /** The text of one entry: two lengths, each before its colon. */
  lemma TextOfOne(d: Digest)
    requires DigestOf(map["a" := "bc", "refresh" := "1"], d)
    ensures d == Hashed("1:a=2:bc,")
  {
    var m := Kept(map["a" := "bc", "refresh" := "1"]);
    assert "a" in m && m.Keys == {"a"};
    var keys :| IsTextOf(keys, m, d.text);
    assert Elements(["a"]) == {"a"};
    SortingUnique(keys, ["a"], m.Keys);
    assert Itoa(1) == "1" && Itoa(2) == "2";
  }
}
