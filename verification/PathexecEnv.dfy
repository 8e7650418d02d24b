/** runit's pathexec_env: settings recorded in one buffer, and merged into a copy of the
    environment in place. */
module PathexecEnv {

  /** A C string, without its terminating zero byte. */
  type CString = s: seq<int> | 0 !in s witness []

  const EQUALS := '=' as int

  datatype Option<T> = None | Some(value: T)
  /** An element of a vector of strings that ends with a null pointer. */
  datatype Pointer = Null | To(s: CString)

  /** The byte at offset k, up to and including the terminator. */
  function Byte(s: CString, k: nat): int
    requires k <= |s|
  {
    if k < |s| then s[k] else 0
  }

  // ----- what strings and vectors mean -----

  /** Where the name ends: at the first equals sign, or at the end. */
  function Split(s: CString): (k: nat)
    ensures k <= |s| && (forall i | 0 <= i < k :: s[i] != EQUALS) && (k < |s| ==> s[k] == EQUALS)
  {
    if s == [] || s[0] == EQUALS then 0 else 1 + Split(s[1..])
  }

  predicate Sets(s: CString) {
    Split(s) < |s|
  }

  function NameOf(s: CString): seq<int> {
    s[..Split(s)]
  }

  lemma SplitIs(s: CString, k: nat)
    requires k <= |s| && (forall i | 0 <= i < k :: s[i] != EQUALS) && (k < |s| ==> s[k] == EQUALS)
    ensures Split(s) == k
  {
  }

  /** A name that is set, or a string that sets nothing. */
  datatype Key = Named(name: seq<int>) | Plain(s: CString)

  predicate For(s: CString, key: Key) {
    match key
    case Named(name) => Sets(s) && NameOf(s) == name
    case Plain(p) => !Sets(s) && s == p
  }

  /** How many entries there are for a key. */
  function Count(e: seq<CString>, key: Key): nat {
    if e == [] then 0 else Count(e[..|e| - 1], key) + if For(e[|e| - 1], key) then 1 else 0
  }

  /** What the vector says, with the whole string as the value of its name; of several
      entries for a name, the last one counts. */
  function Meaning(e: seq<CString>): map<seq<int>, CString> {
    if e == [] then map[]
    else
      var m, s := Meaning(e[..|e| - 1]), e[|e| - 1];
      if Sets(s) then m[NameOf(s) := s] else m
  }

  ghost predicate Distinct(e: seq<CString>) {
    forall i, j | 0 <= i < j < |e| && Sets(e[i]) && Sets(e[j]) :: NameOf(e[i]) != NameOf(e[j])
  }

  /** A setting "name=value" replaces, a bare "name" removes. */
  function Applied(m: map<seq<int>, CString>, r: CString): map<seq<int>, CString> {
    if Sets(r) then m[NameOf(r) := r] else m - {NameOf(r)}
  }

  function AppliedAll(m: map<seq<int>, CString>, rs: seq<CString>): map<seq<int>, CString> {
    if rs == [] then m else Applied(AppliedAll(m, rs[..|rs| - 1]), rs[|rs| - 1])
  }

  // ----- merging one setting -----

  /** The first entry for a key, or the length. */
  function First(e: seq<CString>, key: Key): (t: nat)
    ensures t <= |e| && (forall i | 0 <= i < t :: !For(e[i], key)) && (t < |e| ==> For(e[t], key))
  {
    if e == [] || For(e[0], key) then 0 else 1 + First(e[1..], key)
  }

  /** Without the first entry for that key; the last entry takes its place. */
  function Without(e: seq<CString>, key: Key): seq<CString> {
    var t := First(e, key);
    if t < |e| then e[t := e[|e| - 1]][..|e| - 1] else e
  }

  function Merged(e: seq<CString>, r: CString): seq<CString> {
    Without(e, Named(NameOf(r))) + if Sets(r) then [r] else []
  }

  function MergedAll(e: seq<CString>, rs: seq<CString>): seq<CString> {
    if rs == [] then e else Merged(MergedAll(e, rs[..|rs| - 1]), rs[|rs| - 1])
  }

  lemma {:induction false} CountUpdate(e: seq<CString>, t: nat, s: CString, key: Key)
    requires t < |e|
    ensures Count(e[t := s], key) + (if For(e[t], key) then 1 else 0) == Count(e, key) + if For(s, key) then 1 else 0
  {
    hide For;
    var n := |e| - 1;
    if t < n {
      CountUpdate(e[..n], t, s, key);
      assert e[t := s][..n] == e[..n][t := s];
    } else {
      assert e[t := s][..n] == e[..n];
    }
  }

  lemma CountAppend(e: seq<CString>, s: CString, key: Key)
    ensures Count(e + [s], key) == Count(e, key) + if For(s, key) then 1 else 0
  {
    assert (e + [s])[..|e|] == e;
  }

  lemma {:induction false} CountNone(e: seq<CString>, key: Key)
    ensures Count(e, key) == 0 <==> First(e, key) == |e|
  {
    hide For;
    if e != [] {
      CountNone(e[..|e| - 1], key);
      assert e == e[..|e| - 1] + [e[|e| - 1]];
    }
  }

  lemma WithoutCounts(e: seq<CString>, gone: Key, key: Key)
    requires gone.Named?
    ensures Count(Without(e, gone), key) == if key == gone &&
            Count(e, key) > 0 then Count(e, key) - 1 else Count(e, key)
  {
    var t, n := First(e, gone), |e| - 1;
    CountNone(e, gone);
    if t < |e| {
      assert For(e[t], key) <==> key == gone;
      hide For;
      CountUpdate(e, t, e[n], key);
      assert e[t := e[n]] == Without(e, gone) + [e[n]];
      CountAppend(Without(e, gone), e[n], key);
    }
  }

  /** Exactly what merging does to the number of entries for each name, and that it
      leaves the entries alone that set nothing.  A name that occurs twice stays. */
  lemma MergedCounts(e: seq<CString>, r: CString, key: Key)
    ensures Count(Merged(e, r), key) ==
            if key != Named(NameOf(r)) then Count(e, key)
            else (if Count(e, key) > 0 then Count(e, key) - 1 else 0) + if Sets(r) then 1 else 0
  {
    WithoutCounts(e, Named(NameOf(r)), key);
    if Sets(r) {
      CountAppend(Without(e, Named(NameOf(r))), r, key);
    } else {
      assert Without(e, Named(NameOf(r))) + [] == Without(e, Named(NameOf(r)));
    }
  }

  /** Entries that set nothing survive any number of settings. */
  lemma {:induction false} PlainSurvive(e: seq<CString>, rs: seq<CString>, p: CString)
    ensures Count(MergedAll(e, rs), Plain(p)) == Count(e, Plain(p))
  {
    if rs != [] {
      PlainSurvive(e, rs[..|rs| - 1], p);
      MergedCounts(MergedAll(e, rs[..|rs| - 1]), rs[|rs| - 1], Plain(p));
    }
  }

  // ----- what it means -----

  lemma {:induction false} CountTwice(e: seq<CString>, i: nat, j: nat, key: Key)
    requires i < j < |e| && For(e[i], key) && For(e[j], key)
    ensures Count(e, key) >= 2
  {
    hide For;
    var n := |e| - 1;
    if j < n {
      CountTwice(e[..n], i, j, key);
    } else {
      CountNone(e[..n], key);
      assert For(e[..n][i], key);
    }
  }

  lemma {:induction false} CountOnce(e: seq<CString>, key: Key)
    requires forall i, j | 0 <= i < j < |e| :: !(For(e[i], key) && For(e[j], key))
    ensures Count(e, key) <= 1
  {
    hide For;
    if e != [] {
      var n := |e| - 1;
      CountOnce(e[..n], key);
      CountNone(e[..n], key);
    }
  }

  /** Names are distinct if none is counted twice. */
  lemma DistinctCounts(e: seq<CString>)
    ensures Distinct(e) <==> forall name :: Count(e, Named(name)) <= 1
  {
    if Distinct(e) {
      forall name ensures Count(e, Named(name)) <= 1 {
        CountOnce(e, Named(name));
      }
    } else {
      var i, j :| 0 <= i < j < |e| && Sets(e[i]) && Sets(e[j]) && NameOf(e[i]) == NameOf(e[j]);
      CountTwice(e, i, j, Named(NameOf(e[i])));
    }
  }

  /** After merging, names are distinct exactly if they were before, apart from the one
      merged, which may have occurred twice if it is only removed. */
  lemma MergedDistinct(e: seq<CString>, r: CString)
    ensures Distinct(Merged(e, r)) <==>
            (forall name | name != NameOf(r) :: Count(e, Named(name)) <= 1) &&
                Count(e, Named(NameOf(r))) <= if Sets(r) then 1 else 2
  {
    var after, name := Merged(e, r), NameOf(r);
    DistinctCounts(after);
    forall other ensures Count(after, Named(other)) ==
            if other != name then Count(e, Named(other))
            else (if Count(e, Named(other)) > 0 then Count(e, Named(other)) - 1 else 0) + if Sets(r) then 1 else 0 {
      MergedCounts(e, r, Named(other));
    }
    hide Merged, Distinct, Sets, NameOf;
    if Distinct(after) {
      forall other | other != name ensures Count(e, Named(other)) <= 1 {
        assert Count(after, Named(other)) <= 1;
      }
      assert Count(after, Named(name)) <= 1;
    }
  }

  /** With distinct names, the meaning is just the set of settings. */
  lemma {:induction false} MeaningIs(e: seq<CString>, name: seq<int>)
    requires Distinct(e)
    ensures name in Meaning(e) <==> First(e, Named(name)) < |e|
    ensures First(e, Named(name)) < |e| ==> Meaning(e)[name] == e[First(e, Named(name))]
  {
    if e != [] {
      var n := |e| - 1;
      assert Distinct(e[..n]);
      assert For(e[n], Named(name)) && First(e[..n], Named(name)) < n ==> !Distinct(e);
      hide Sets, NameOf;
      MeaningIs(e[..n], name);
      FirstFront(e, Named(name));
    }
  }

  lemma {:induction false} FirstFront(e: seq<CString>, key: Key)
    requires e != []
    ensures var n := |e| - 1;
            First(e, key) == if First(e[..n], key) < n then First(e[..n], key) else if For(e[n], key) then n else n + 1
  {
    hide For;
    var n := |e| - 1;
    assert forall i | 0 <= i < n :: e[..n][i] == e[i];
  }

  /** Merging one setting into distinct names is updating the map that they denote. */
  lemma MergedMeaning(e: seq<CString>, r: CString)
    requires Distinct(e)
    ensures Distinct(Merged(e, r)) && Meaning(Merged(e, r)) == Applied(Meaning(e), r)
  {
    DistinctCounts(e);
    MergedDistinct(e, r);
    var after := Merged(e, r);
    forall name ensures name in Meaning(after) <==> name in Applied(Meaning(e), r) {
      MeaningAfter(e, r, name);
    }
    forall name | name in Meaning(after) ensures Meaning(after)[name] == Applied(Meaning(e), r)[name] {
      MeaningAfter(e, r, name);
    }
    hide Merged, Applied, Meaning, Distinct;
  }

  lemma MeaningAfter(e: seq<CString>, r: CString, name: seq<int>)
    requires Distinct(e) && Distinct(Merged(e, r))
    ensures name in Meaning(Merged(e, r)) <==> name in Applied(Meaning(e), r)
    ensures name in Meaning(Merged(e, r)) ==> Meaning(Merged(e, r))[name] == Applied(Meaning(e), r)[name]
  {
    hide Meaning, Count;
    var after, key := Merged(e, r), Named(name);
    MeaningIs(e, name);
    MeaningIs(after, name);
    CountNone(e, key);
    CountNone(after, key);
    MergedCounts(e, r, key);
    DistinctCounts(e);
    assert Count(e, key) <= 1;
    if First(after, key) < |after| {
      var t := First(after, key);
      if t < |Without(e, Named(NameOf(r)))| && name != NameOf(r) {
        // an older entry, perhaps moved
        var j := if t == First(e, Named(NameOf(r))) then |e| - 1 else t;
        assert e[j] == after[t];
        OnlyOne(e, key, j);
      }
    }
  }

  lemma OnlyOne(e: seq<CString>, key: Key, j: nat)
    requires key.Named? && Distinct(e) && j < |e| && For(e[j], key)
    ensures First(e, key) == j
  {
  }

  /** All settings, one after the other: the environment passed on denotes the old map
      after the sets and deletes in the order in which they were recorded. */
  lemma {:induction false} MergedAllMeaning(e: seq<CString>, rs: seq<CString>)
    requires Distinct(e)
    ensures Distinct(MergedAll(e, rs)) && Meaning(MergedAll(e, rs)) == AppliedAll(Meaning(e), rs)
    ensures |MergedAll(e, rs)| <= |e| + |rs|
  {
    if rs != [] {
      MergedAllMeaning(e, rs[..|rs| - 1]);
      MergedMeaning(MergedAll(e, rs[..|rs| - 1]), rs[|rs| - 1]);
    }
  }

  /** A reader that takes the first entry for a name finds the new setting exactly if
      the name did not occur twice before; otherwise an old one has come first. */
  lemma MergedLookup(e: seq<CString>, r: CString)
    requires Sets(r)
    ensures var after, key := Merged(e, r), Named(NameOf(r));
            First(after, key) == |after| - 1 <==> Count(e, key) <= 1
  {
    var key := Named(NameOf(r));
    var rest := Without(e, key);
    WithoutCounts(e, key, key);
    CountNone(rest, key);
    FirstFront(Merged(e, r), key);
    assert Merged(e, r)[..|rest|] == rest;
  }

  // ----- the code -----

  /** str_chr for the equals sign. */
  method StrChr(s: CString) returns (k: nat)
    ensures k == Split(s)
  {
    k := 0;
    while Byte(s, k) != 0 && Byte(s, k) != EQUALS
      invariant k <= |s| && forall i | 0 <= i < k :: s[i] != EQUALS
      decreases |s| - k
    {
      k := k + 1;
    }
    assert k < |s| ==> s[k] in s;
    SplitIs(s, k);
  }

  /** byte_equal; no byte is looked at beyond the terminator of s. */
  method ByteEqual(r: CString, n: nat, s: CString) returns (same: bool)
    requires n <= |r|
    ensures same <==> n <= |s| && s[..n] == r[..n]
  {
    var k := 0;
    while k < n
      invariant k <= n && k <= |s| && s[..k] == r[..k]
    {
      assert r[k] in r;
      if r[k] != Byte(s, k) {
        assert k < |s| ==> s[..k + 1][k] != r[..k + 1][k];
        assert n <= |s| ==> s[..n][k] != r[..n][k];
        return false;
      }
      k := k + 1;
    }
    same := true;
  }

  /** Settings as they stand in the buffer, each with its terminator. */
  function Packed(rs: seq<CString>): seq<int> {
    if rs == [] then [] else Packed(rs[..|rs| - 1]) + rs[|rs| - 1] + [0]
  }

  lemma {:induction false} PackedAt(rs: seq<CString>, k: nat)
    requires k < |rs|
    ensures var start := |Packed(rs[..k])|;
            && start + |rs[k]| < |Packed(rs)|
            && Packed(rs)[..start] == Packed(rs[..k])
            && Packed(rs)[start..start + |rs[k]|] == rs[k] && Packed(rs)[start + |rs[k]|] == 0
            && |Packed(rs[..k + 1])| == start + |rs[k]| + 1
  {
    var n := |rs| - 1;
    if k < n {
      PackedAt(rs[..n], k);
      assert rs[..n][..k] == rs[..k] && rs[..n][..k + 1] == rs[..k + 1];
    } else {
      assert rs[..k] == rs[..n] && rs[..k + 1] == rs && rs[..k + 1][..k] == rs[..k];
    }
  }

  /** The first n elements of the vector point to these strings. */
  ghost predicate Holds(e: seq<Pointer>, v: seq<CString>) {
    |v| <= |e| && forall i | 0 <= i < |v| :: e[i] == To(v[i])
  }

  /** The two statics: what has been recorded, as bytes. */
  class Settings {
    /** Allocation does not fail. */
    const roomy: bool
    var plus: seq<int>
    ghost var records: seq<CString>

    ghost predicate Valid()
      reads this
    {
      plus == Packed(records)
    }

    constructor (roomy: bool)
      ensures Valid() && records == [] && this.roomy == roomy
    {
      this.roomy := roomy;
      plus, records := [], [];
    }

    /** pathexec_env */
    method Record(s: Option<CString>, t: Option<CString>) returns (ok: bool)
      requires Valid()
      modifies this
      ensures Valid()
      ensures (s.None? ==> ok && records == old(records)) && (roomy ==> ok)
      ensures s.Some? ==>
              records == old(records) + if !ok then [] else [if t.None? then s.value else s.value + [EQUALS] + t.value]
    {
      if s.None? {
        return true;
      }
      ok := *;
      ok := ok || roomy;
      if ok {
        var tmp: CString := s.value;
        if t.Some? {
          tmp := tmp + [EQUALS] + t.value;
        }
        plus := plus + tmp + [0];
        assert (records + [tmp])[..|records|] == records;
        records := records + [tmp];
      }
    }

    /** The search for an entry to replace, and the setting itself. */
    method Merge(e: array<Pointer>, length: nat, r: CString, ghost v: seq<CString>) returns (elen: nat)
      requires length == |v| < e.Length && Holds(e[..], v)
      modifies e
      ensures elen <= length + 1 && elen == |Merged(v, r)| && Holds(e[..], Merged(v, r))
    {
      elen := length;
      var split := StrChr(r);
      ghost var key := Named(NameOf(r));
      var t := 0;
      while t < elen
        invariant t <= elen == length && e[..] == old(e[..])
        invariant forall i | 0 <= i < t :: !For(v[i], key)
      {
        assert e[t] == e[..][t] == To(v[t]);
        var same := ByteEqual(r, split, e[t].s);
        Matches(r, v[t]);
        if same {
          if Byte(e[t].s, split) == EQUALS {
            elen := elen - 1;
            e[t] := e[elen];
            break;
          }
        }
        t := t + 1;
      }
      FirstIs(v, key, t);
      assert Holds(e[..], Without(v, key));
      if split < |r| {
        e[elen] := To(r);
        elen := elen + 1;
      }
    }

    /** The vector that is handed to the new program, with its null pointer. */
    method Run(environ: seq<CString>) returns (e: array<Pointer>)
      requires Valid()
      ensures var v := MergedAll(environ, records);
              && |v| < e.Length == |environ| + |records| + 1
              && Holds(e[..], v) && e[|v|] == Null
    {
      var elen := |environ|;
      var zeros := CountRecords();
      e := new Pointer[elen + zeros + 1](_ => Null);
      elen := 0;
      while elen < |environ|
        invariant elen <= |environ| && Holds(e[..], environ[..elen])
      {
        e[elen] := To(environ[elen]);
        elen := elen + 1;
      }
      assert environ[..elen] == environ;
      elen := MergeRecords(e, elen, environ);
      e[elen] := Null;
    }

    method MergeRecords(e: array<Pointer>, length: nat, ghost environ: seq<CString>) returns (elen: nat)
      requires Valid() && length == |environ| && e.Length == length + |records| + 1 && Holds(e[..], environ)
      modifies e
      ensures elen == |MergedAll(environ, records)| < e.Length && Holds(e[..], MergedAll(environ, records))
    {
      hide At, Packed, Merged, MergedAll, Holds, Settings.Valid;
      ValidShown();
      elen := length;
      var i, j := 0, 0;
      ghost var k := 0;
      ghost var v := environ;
      AtEdges(records, k, j, i);
      MergedNone(environ, records);
      while i < |plus|
        invariant i <= |plus| && At(records, k, j, i) && k <= |records| && j <= i
        invariant v == MergedAll(environ, records[..k]) && elen == |v| <= length + k && Holds(e[..], v)
      {
        Advance(records, k, j, i);
        if plus[i] == 0 {
          MergedNext(environ, records, k);
          elen := Merge(e, elen, plus[j..i], v);
          v := Merged(v, records[k]);
          j := i + 1;
          k := k + 1;
        }
        i := i + 1;
      }
      AtEdges(records, k, j, i);
    }

    lemma ValidShown()
      requires Valid()
      ensures plus == Packed(records)
    {
    }

    method CountRecords() returns (n: nat)
      requires Valid()
      ensures n == |records|
    {
      n := 0;
      var i := 0;
      ghost var j := 0;
      AtEdges(records, n, j, i);
      hide At, Packed;
      while i < |plus|
        invariant i <= |plus| && At(records, n, j, i)
      {
        Advance(records, n, j, i);
        if plus[i] == 0 {
          n := n + 1;
          j := i + 1;
        }
        i := i + 1;
      }
      AtEdges(records, n, j, i);
    }
  }

  /** A scan of the buffer has passed k records and is in the next one, from j on. */
  predicate At(rs: seq<CString>, k: nat, j: nat, i: nat) {
    && k <= |rs| && j == |Packed(rs[..k])| <= i <= |Packed(rs)|
    && if k < |rs| then i <= j + |rs[k]| else i == |Packed(rs)|
  }

  /** A zero byte ends the record that the scan is in. */
  lemma Advance(rs: seq<CString>, k: nat, j: nat, i: nat)
    requires At(rs, k, j, i) && i < |Packed(rs)|
    ensures k < |rs|
    ensures if Packed(rs)[i] == 0 then Packed(rs)[j..i] == rs[k] && At(rs, k + 1, i + 1, i + 1) else At(rs, k, j, i + 1)
  {
    PackedAt(rs, k);
    NoZeroInside(rs, k);
    if k + 1 < |rs| {
      PackedAt(rs, k + 1);
    } else {
      assert rs[..k + 1] == rs;
    }
    hide Packed;
  }

  lemma NoZeroInside(rs: seq<CString>, k: nat)
    requires k < |rs|
    ensures |Packed(rs[..k])| + |rs[k]| < |Packed(rs)|
    ensures forall p | |Packed(rs[..k])| <= p < |Packed(rs[..k])| + |rs[k]| :: Packed(rs)[p] != 0
  {
    PackedAt(rs, k);
    hide Packed;
    var j := |Packed(rs[..k])|;
    forall p | j <= p < j + |rs[k]| ensures Packed(rs)[p] != 0 {
      assert Packed(rs)[j..j + |rs[k]|][p - j] == rs[k][p - j] && rs[k][p - j] in rs[k];
    }
  }

  lemma MergedNone(e: seq<CString>, rs: seq<CString>)
    ensures MergedAll(e, rs[..0]) == e && (rs == [] ==> rs[..0] == rs)
  {
  }

  lemma MergedNext(e: seq<CString>, rs: seq<CString>, k: nat)
    requires k < |rs|
    ensures MergedAll(e, rs[..k + 1]) == Merged(MergedAll(e, rs[..k]), rs[k])
  {
    assert rs[..k + 1][..k] == rs[..k];
  }

  lemma AtEdges(rs: seq<CString>, k: nat, j: nat, i: nat)
    ensures At(rs, 0, 0, 0)
    ensures At(rs, k, j, i) && i == |Packed(rs)| ==> k == |rs|
    ensures k == |rs| ==> rs[..k] == rs
  {
    assert rs[..0] == [];
    if rs != [] {
      PackedAt(rs, 0);
    }
    if At(rs, k, j, i) && k < |rs| {
      PackedAt(rs, k);
    }
  }

  lemma FirstIs(v: seq<CString>, key: Key, t: nat)
    requires t <= |v| && (forall i | 0 <= i < t :: !For(v[i], key)) && (t < |v| ==> For(v[t], key))
    ensures First(v, key) == t
  {
  }

  /** The two tests of the loop find the entries for the name. */
  lemma Matches(r: CString, s: CString)
    ensures For(s, Named(NameOf(r))) <==>
            Split(r) <= |s| && s[..Split(r)] == r[..Split(r)] && Byte(s, Split(r)) == EQUALS
  {
    var k := Split(r);
    if k <= |s| && s[..k] == r[..k] && Byte(s, k) == EQUALS {
      forall i | 0 <= i < k ensures s[i] != EQUALS {
        assert s[..k][i] == r[..k][i];
      }
      SplitIs(s, k);
    }
  }
}
