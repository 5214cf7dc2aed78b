/** A feature layer's hash index: kept unsorted while features are added, sorted when one is
    looked up. Whatever the hash function, a lookup is a scan for the earliest match among the
    features as they were added, as long as the string pool kept the spelling of their ids. */
module FeatureIndex {
  import opened Options
  import opened StringPools

  datatype Value = Number(n: int) | Text(s: string)

  datatype KeyValue = KeyValue(key: string, value: Value)

  datatype IdPart = IdPart(key: string, isOptional: bool)

  /** The first composition of a type is its primary one. */
  datatype FeatureType = FeatureType(name: string, compositions: seq<seq<IdPart>>)

  datatype Feature = Feature(typeId: string, parts: seq<KeyValue>)

  // ---- optional id parts ------------------------------------------------

  /** Where the walk through the composition is after looking for `key`, and whether the part
      found is optional; a key that is not found counts as optional. */
  function Seek(key: string, composition: seq<IdPart>): (r: (seq<IdPart>, bool))
    ensures |r.0| <= |composition|
  {
    if composition == [] then ([], true)
    else if composition[0].key == key then (composition[1..], composition[0].isOptional)
    else Seek(key, composition[1..])
  }

  function StripOptional(kvs: seq<KeyValue>, composition: seq<IdPart>): seq<KeyValue> {
    if kvs == [] then []
    else
      var (rest, optional) := Seek(kvs[0].key, composition);
      (if optional then [] else [kvs[0]]) + StripOptional(kvs[1..], rest)
  }

  /** The inner walk: from the current id part up to and past the one with the given key. */
  method NextIdPart(key: string, composition: seq<IdPart>, from: nat) returns (idPart: nat, isOptional: bool)
    requires from <= |composition|
    ensures from <= idPart <= |composition|
    ensures Seek(key, composition[from..]) == (composition[idPart..], isOptional)
  {
    idPart, isOptional := from, true;
    while idPart < |composition|
      invariant from <= idPart <= |composition| && isOptional
      invariant Seek(key, composition[from..]) == Seek(key, composition[idPart..])
    {
      assert composition[idPart..][0] == composition[idPart] && composition[idPart..][1..] == composition[idPart + 1..];
      idPart := idPart + 1;
      if key == composition[idPart - 1].key {
        isOptional := composition[idPart - 1].isOptional;
        return;
      }
    }
  }

  /** One key: it is kept or not, and the walk goes on behind the id part it was found at. */
  lemma StripStep(kvs: seq<KeyValue>, composition: seq<IdPart>, i: nat, next: nat, from: nat, to: nat, isOptional: bool, kept: seq<KeyValue>)
    requires next == i + 1 <= |kvs| && from <= |composition| && to <= |composition|
    requires Seek(kvs[i].key, composition[from..]) == (composition[to..], isOptional) && kept == if isOptional then [] else [kvs[i]]
    ensures StripOptional(kvs[i..], composition[from..]) == kept + StripOptional(kvs[next..], composition[to..])
  {
    assert kvs[i..][0] == kvs[i] && kvs[i..][1..] == kvs[next..];
  }

  method StripOptionalIdParts(kvs: seq<KeyValue>, composition: seq<IdPart>) returns (result: seq<KeyValue>)
    ensures result == StripOptional(kvs, composition)
  {
    result := [];
    var i, idPart := 0, 0;
    while i < |kvs|
      invariant 0 <= i <= |kvs| && 0 <= idPart <= |composition|
      invariant StripOptional(kvs, composition) == result + StripOptional(kvs[i..], composition[idPart..])
    {
      ghost var from := idPart;
      var isOptional;
      idPart, isOptional := NextIdPart(kvs[i].key, composition, idPart);
      var next, kept := i + 1, if isOptional then [] else [kvs[i]];
      StripStep(kvs, composition, i, next, from, idPart, isOptional, kept);
      Regroup(result, kept, StripOptional(kvs[next..], composition[idPart..]));
      result, i := result + kept, next;
    }
  }

  lemma Regroup(a: seq<KeyValue>, b: seq<KeyValue>, c: seq<KeyValue>)
    ensures a + (b + c) == (a + b) + c
  {}

  /** The labels of the composition, all different. */
  predicate DistinctLabels(composition: seq<IdPart>) {
    forall i, j :: 0 <= i < j < |composition| ==> composition[i].key != composition[j].key
  }

  /** The keys appear in the order of the composition. */
  predicate InOrder(kvs: seq<KeyValue>, composition: seq<IdPart>)
    decreases |composition|
  {
    if kvs == [] then true
    else if composition == [] then false
    else if kvs[0].key == composition[0].key then InOrder(kvs[1..], composition[1..])
    else InOrder(kvs, composition[1..])
  }

  predicate Mandatory(key: string, composition: seq<IdPart>) {
    exists i :: 0 <= i < |composition| && composition[i].key == key && !composition[i].isOptional
  }

  function OnlyMandatory(kvs: seq<KeyValue>, composition: seq<IdPart>): seq<KeyValue> {
    if kvs == [] then []
    else (if Mandatory(kvs[0].key, composition) then [kvs[0]] else []) + OnlyMandatory(kvs[1..], composition)
  }

  /** On keys in the order of the composition, exactly the mandatory parts are kept. */
  lemma {:induction false} StripKeepsMandatory(kvs: seq<KeyValue>, whole: seq<IdPart>, from: nat)
    requires from <= |whole| && DistinctLabels(whole) && InOrder(kvs, whole[from..])
    ensures StripOptional(kvs, whole[from..]) == OnlyMandatory(kvs, whole)
    decreases |whole| - from, |kvs|
  {
    if kvs != [] {
      assert whole[from..][1..] == whole[from + 1..];
      if kvs[0].key == whole[from].key {
        StripKeepsMandatory(kvs[1..], whole, from + 1);
        assert Mandatory(kvs[0].key, whole) <==> !whole[from].isOptional;
      } else {
        assert StripOptional(kvs, whole[from..]) == StripOptional(kvs, whole[from + 1..]);
        StripKeepsMandatory(kvs, whole, from + 1);
      }
    }
  }

  lemma {:induction false} NothingLeft(kvs: seq<KeyValue>)
    ensures StripOptional(kvs, []) == []
  {
    if kvs != [] { NothingLeft(kvs[1..]); }
  }

  lemma {:induction false} NotFound(key: string, composition: seq<IdPart>)
    requires forall i :: 0 <= i < |composition| ==> composition[i].key != key
    ensures Seek(key, composition) == ([], true)
  {
    if composition != [] { NotFound(key, composition[1..]); }
  }

  /** The keys of `kvs` up to `n` are in the order of the composition, and no more of them. */
  predicate LongestInOrder(kvs: seq<KeyValue>, n: nat, composition: seq<IdPart>) {
    n <= |kvs| && InOrder(kvs[..n], composition) && (n < |kvs| ==> !InOrder(kvs[..n + 1], composition))
  }

  /** A first key that is not in the order of the composition is none of its labels. */
  lemma {:induction false} OutOfOrder(kv: KeyValue, composition: seq<IdPart>, i: nat)
    requires !InOrder([kv], composition) && i < |composition|
    ensures composition[i].key != kv.key
    decreases i
  {
    if i > 0 { OutOfOrder(kv, composition[1..], i - 1); }
  }

  lemma {:induction false} LongestTail(kvs: seq<KeyValue>, n: nat, composition: seq<IdPart>, tail: seq<KeyValue>, rest: seq<IdPart>)
    requires LongestInOrder(kvs, n, composition) && n > 0 && composition != [] && rest == composition[1..] && tail == kvs[1..]
    ensures if kvs[0].key == composition[0].key then LongestInOrder(tail, n - 1, rest) else LongestInOrder(kvs, n, rest)
  {
    assert kvs[..n][1..] == tail[..n - 1] && kvs[..n][0] == kvs[0];
    if n < |kvs| { assert kvs[..n + 1][1..] == tail[..n] && kvs[..n + 1][0] == kvs[0]; }
  }

  /** On any keys: the parts that are kept are the mandatory ones among the longest front of
      the keys that is in the order of the composition; all behind it are lost. */
  lemma {:induction false} StripIsFront(kvs: seq<KeyValue>, whole: seq<IdPart>, from: nat, n: nat)
    requires from <= |whole| && DistinctLabels(whole) && LongestInOrder(kvs, n, whole[from..])
    ensures StripOptional(kvs, whole[from..]) == OnlyMandatory(kvs[..n], whole)
    decreases |whole| - from, |kvs|
  {
    if n == 0 {
      if kvs != [] {
        assert kvs[..1] == [kvs[0]];
        forall i | 0 <= i < |whole[from..]| ensures whole[from..][i].key != kvs[0].key { OutOfOrder(kvs[0], whole[from..], i); }
        NotFound(kvs[0].key, whole[from..]);
        NothingLeft(kvs[1..]);
      }
    } else {
      assert whole[from..] != [];
      assert whole[from..][1..] == whole[from + 1..];
      LongestTail(kvs, n, whole[from..], kvs[1..], whole[from + 1..]);
      if kvs[0].key == whole[from].key {
        assert kvs[..n][1..] == kvs[1..][..n - 1];
        StripIsFront(kvs[1..], whole, from + 1, n - 1);
        assert Mandatory(kvs[0].key, whole) <==> !whole[from].isOptional;
      } else {
        assert StripOptional(kvs, whole[from..]) == StripOptional(kvs, whole[from + 1..]);
        StripIsFront(kvs, whole, from + 1, n);
      }
    }
  }

  lemma {:induction false} StripIsPart(kvs: seq<KeyValue>, composition: seq<IdPart>, kv: KeyValue)
    requires kv in StripOptional(kvs, composition)
    ensures kv in kvs
  {
    var (rest, optional) := Seek(kvs[0].key, composition);
    if kv != kvs[0] {
      assert kv in StripOptional(kvs[1..], rest);
      StripIsPart(kvs[1..], rest, kv);
    }
  }

  /** The two agree on all mandatory parts. */
  ghost predicate SameMandatory(a: seq<KeyValue>, b: seq<KeyValue>, composition: seq<IdPart>) {
    forall kv: KeyValue :: Mandatory(kv.key, composition) ==> (kv in a <==> kv in b)
  }

  lemma {:induction false} InOrderLabels(kvs: seq<KeyValue>, composition: seq<IdPart>, kv: KeyValue)
    requires InOrder(kvs, composition) && kv in kvs
    ensures exists i :: 0 <= i < |composition| && composition[i].key == kv.key
    decreases |composition|
  {
    if kvs[0].key == composition[0].key {
      if kv != kvs[0] {
        InOrderLabels(kvs[1..], composition[1..], kv);
        var i :| 0 <= i < |composition| - 1 && composition[1..][i].key == kv.key;
        assert composition[i + 1].key == kv.key;
      }
    } else {
      InOrderLabels(kvs, composition[1..], kv);
      var i :| 0 <= i < |composition| - 1 && composition[1..][i].key == kv.key;
      assert composition[i + 1].key == kv.key;
    }
  }

  /** An id without its part for the first label of a composition. */
  function Behind(kvs: seq<KeyValue>, composition: seq<IdPart>): seq<KeyValue>
    requires composition != []
  {
    if kvs != [] && kvs[0].key == composition[0].key then kvs[1..] else kvs
  }

  /** `a` is `a'`, or has one part more at its front, and that alone has the key. */
  predicate OneMoreAt(key: string, a: seq<KeyValue>, a': seq<KeyValue>) {
    (a == a' || (a != [] && a == [a[0]] + a' && a[0].key == key)) && forall kv :: kv in a' ==> kv.key != key
  }

  /** Both have one part more, the same one, or neither has. */
  predicate SameFirst(a: seq<KeyValue>, a': seq<KeyValue>, b: seq<KeyValue>, b': seq<KeyValue>) {
    (a == a' && b == b') || (a != a' && b != b' && a != [] && b != [] && a[0] == b[0])
  }

  lemma {:induction false} BehindFirst(kvs: seq<KeyValue>, composition: seq<IdPart>, rest: seq<IdPart>, tail: seq<KeyValue>)
    requires composition != [] && rest == composition[1..] && DistinctLabels(composition) && InOrder(kvs, composition) && tail == Behind(kvs, composition)
    ensures InOrder(tail, rest) && OneMoreAt(composition[0].key, kvs, tail)
    ensures StripOptional(kvs, composition) == (if tail != kvs && !composition[0].isOptional then [kvs[0]] else []) + StripOptional(tail, rest)
  {
    forall kv | kv in tail ensures kv.key != composition[0].key {
      InOrderLabels(tail, rest, kv);
      var i :| 0 <= i < |rest| && rest[i].key == kv.key;
      assert composition[i + 1].key == kv.key;
    }
    if tail != kvs { StripFirst(kvs, composition); } else if kvs != [] { StripSkips(kvs, composition); }
  }

  lemma {:induction false} MandatoryBehind(composition: seq<IdPart>, rest: seq<IdPart>, key: string)
    requires composition != [] && rest == composition[1..] && DistinctLabels(composition)
    ensures Mandatory(key, composition) <==> (key == composition[0].key && !composition[0].isOptional) || Mandatory(key, rest)
    ensures Mandatory(key, rest) ==> key != composition[0].key
  {
    assert forall i :: 0 < i < |composition| ==> rest[i - 1] == composition[i];
  }

  lemma PartIn(key: string, a: seq<KeyValue>, a': seq<KeyValue>, kv: KeyValue)
    requires OneMoreAt(key, a, a')
    ensures kv in a <==> kv in a' || (a != a' && kv == a[0])
    ensures kv.key == key ==> kv !in a'
    ensures kv.key != key ==> (kv in a <==> kv in a')
  {}

  /** `a` and `b` agree on what is mandatory if `a'` and `b'` do, and on the part in front. */
  lemma {:induction false} MandatoryTail(a: seq<KeyValue>, b: seq<KeyValue>, composition: seq<IdPart>, rest: seq<IdPart>, a': seq<KeyValue>, b': seq<KeyValue>, key: string)
    requires composition != [] && rest == composition[1..] && DistinctLabels(composition) && key == composition[0].key
    requires OneMoreAt(key, a, a') && OneMoreAt(key, b, b')
    ensures SameMandatory(a, b, composition) <==> SameMandatory(a', b', rest) && (composition[0].isOptional || SameFirst(a, a', b, b'))
  {
    forall kv: KeyValue
      ensures (kv in a <==> kv in a' || (a != a' && kv == a[0])) && (kv in b <==> kv in b' || (b != b' && kv == b[0]))
      ensures Mandatory(kv.key, composition) <==> (kv.key == key && !composition[0].isOptional) || Mandatory(kv.key, rest)
      ensures Mandatory(kv.key, rest) ==> kv.key != key
    {
      PartIn(key, a, a', kv);
      PartIn(key, b, b', kv);
      MandatoryBehind(composition, rest, kv.key);
    }
    if SameMandatory(a, b, composition) && !composition[0].isOptional {
      if a != a' { assert a[0] in b; }
      if b != b' { assert b[0] in a; }
    }
  }

  lemma FrontDecides(front: seq<KeyValue>, front': seq<KeyValue>, sa: seq<KeyValue>, sb: seq<KeyValue>)
    requires |front| <= 1 && |front'| <= 1 && (forall kv :: kv in front ==> kv !in sb) && forall kv :: kv in front' ==> kv !in sa
    ensures front + sa == front' + sb <==> front == front' && sa == sb
  {
    if front + sa == front' + sb {
      if front != [] {
        assert front[0] in front && (front' + sb)[0] == front[0];
        assert front' == [] ==> front' + sb == sb;
      }
      if front' != [] {
        assert front'[0] in front' && (front + sa)[0] == front'[0];
        assert front == [] ==> front + sa == sa;
      }
      assert sa == (front + sa)[|front|..] && sb == (front' + sb)[|front|..];
    }
  }

  lemma {:induction false} NotInStrip(key: string, a: seq<KeyValue>, a': seq<KeyValue>, b': seq<KeyValue>, rest: seq<IdPart>)
    requires OneMoreAt(key, a, a') && a != a' && forall kv :: kv in b' ==> kv.key != key
    ensures a[0] !in StripOptional(b', rest)
  {
    if a[0] in StripOptional(b', rest) { StripIsPart(b', rest, a[0]); }
  }

  lemma {:induction false} StripTail(a: seq<KeyValue>, b: seq<KeyValue>, composition: seq<IdPart>, rest: seq<IdPart>, a': seq<KeyValue>, b': seq<KeyValue>)
    requires composition != [] && rest == composition[1..] && DistinctLabels(composition) && InOrder(a, composition) && InOrder(b, composition)
    requires a' == Behind(a, composition) && b' == Behind(b, composition)
    ensures StripOptional(a, composition) == StripOptional(b, composition) <==>
              StripOptional(a', rest) == StripOptional(b', rest) && (composition[0].isOptional || SameFirst(a, a', b, b'))
  {
    BehindFirst(a, composition, rest, a');
    BehindFirst(b, composition, rest, b');
    var sa, sb := StripOptional(a', rest), StripOptional(b', rest);
    if composition[0].isOptional {
      assert [] + sa == sa && [] + sb == sb;
    } else {
      if a != a' { NotInStrip(composition[0].key, a, a', b', rest); }
      if b != b' { NotInStrip(composition[0].key, b, b', a', rest); }
      FrontDecides(if a != a' then [a[0]] else [], if b != b' then [b[0]] else [], sa, sb);
    }
  }

  /** For ids in the order of the composition: what is left of two without optional parts is the
      same if and only if they agree on all mandatory parts. */
  lemma {:induction false} StripsAgree(a: seq<KeyValue>, b: seq<KeyValue>, composition: seq<IdPart>)
    requires DistinctLabels(composition) && InOrder(a, composition) && InOrder(b, composition)
    ensures StripOptional(a, composition) == StripOptional(b, composition) <==> SameMandatory(a, b, composition)
    decreases |composition|
  {
    if composition != [] {
      var rest, a', b' := composition[1..], Behind(a, composition), Behind(b, composition);
      BehindFirst(a, composition, rest, a');
      BehindFirst(b, composition, rest, b');
      StripsAgree(a', b', rest);
      StripTail(a, b, composition, rest, a', b');
      MandatoryTail(a, b, composition, rest, a', b', composition[0].key);
    }
  }

  // ---- sorting and searching --------------------------------------------

  datatype Entry = Entry(addr: nat, hash: nat)

  predicate Before(a: Entry, b: Entry) { a.hash < b.hash || (a.hash == b.hash && a.addr < b.addr) }

  predicate Sorted(s: seq<Entry>) { forall i, j :: 0 <= i < j < |s| ==> !Before(s[j], s[i]) }

  function Insert(s: seq<Entry>, e: Entry): seq<Entry> {
    if s == [] || !Before(e, s[|s| - 1]) then s + [e]
    else Insert(s[..|s| - 1], e) + [s[|s| - 1]]
  }

  function Sort(s: seq<Entry>): seq<Entry> {
    if s == [] then [] else Insert(Sort(s[..|s| - 1]), s[|s| - 1])
  }

  lemma LastOut(s: seq<Entry>)
    requires s != []
    ensures multiset(s) == multiset(s[..|s| - 1]) + multiset{s[|s| - 1]}
  {
    assert s == s[..|s| - 1] + [s[|s| - 1]];
  }

  lemma {:induction false} InsertPermutes(s: seq<Entry>, e: Entry)
    ensures multiset(Insert(s, e)) == multiset(s) + multiset{e}
  {
    if s != [] && Before(e, s[|s| - 1]) {
      InsertPermutes(s[..|s| - 1], e);
      LastOut(s);
    }
  }

  lemma InsertedFrom(s: seq<Entry>, e: Entry, i: nat)
    requires i < |Insert(s, e)| && Insert(s, e)[i] != e
    ensures exists k :: 0 <= k < |s| && s[k] == Insert(s, e)[i]
  {
    InsertPermutes(s, e);
    assert Insert(s, e)[i] in multiset(Insert(s, e));
    assert Insert(s, e)[i] in multiset(s);
  }

  lemma SortedAppend(t: seq<Entry>, last: Entry)
    requires Sorted(t) && forall i :: 0 <= i < |t| ==> !Before(last, t[i])
    ensures Sorted(t + [last])
  {}

  lemma {:induction false} InsertSorts(s: seq<Entry>, e: Entry)
    requires Sorted(s)
    ensures Sorted(Insert(s, e))
  {
    if s != [] && Before(e, s[|s| - 1]) {
      var front, last := s[..|s| - 1], s[|s| - 1];
      InsertSorts(front, e);
      var t := Insert(front, e);
      forall i | 0 <= i < |t| ensures !Before(last, t[i]) {
        if t[i] != e { InsertedFrom(front, e, i); }
      }
      SortedAppend(t, last);
    }
  }

  lemma {:induction false} SortPermutes(s: seq<Entry>)
    ensures multiset(Sort(s)) == multiset(s)
  {
    if s != [] {
      SortPermutes(s[..|s| - 1]);
      InsertPermutes(Sort(s[..|s| - 1]), s[|s| - 1]);
      LastOut(s);
    }
  }

  lemma {:induction false} SortSorts(s: seq<Entry>)
    ensures Sorted(Sort(s)) && multiset(Sort(s)) == multiset(s)
  {
    SortPermutes(s);
    if s != [] {
      SortSorts(s[..|s| - 1]);
      InsertSorts(Sort(s[..|s| - 1]), s[|s| - 1]);
    }
  }

  /** The first entry whose hash is not smaller. */
  method LowerBound(s: seq<Entry>, hash: nat) returns (lo: nat)
    requires Sorted(s)
    ensures lo <= |s|
    ensures forall i :: 0 <= i < lo ==> s[i].hash < hash
    ensures forall i :: lo <= i < |s| ==> s[i].hash >= hash
  {
    lo := 0;
    var hi := |s|;
    while lo < hi
      invariant lo <= hi <= |s|
      invariant forall i :: 0 <= i < lo ==> s[i].hash < hash
      invariant forall i :: hi <= i < |s| ==> s[i].hash >= hash
    {
      var mid := (lo + hi) / 2;
      if s[mid].hash < hash {
        forall i | 0 <= i < mid ensures s[i].hash < hash { assert !Before(s[mid], s[i]); }
        lo := mid + 1;
      } else {
        forall i | mid < i < |s| ensures s[i].hash >= hash { assert !Before(s[i], s[mid]); }
        hi := mid;
      }
    }
  }

  // ---- the layer --------------------------------------------------------

  function PrimaryComposition(types: seq<FeatureType>, typeId: string): Option<seq<IdPart>> {
    if types == [] then None
    else if types[0].name == typeId then (if types[0].compositions == [] then None else Some(types[0].compositions[0]))
    else PrimaryComposition(types[1..], typeId)
  }

  /** The `i`-th type is the first with that name. */
  predicate FirstNamed(types: seq<FeatureType>, typeId: string, i: nat) {
    i < |types| && types[i].name == typeId && forall j :: 0 <= j < i ==> types[j].name != typeId
  }

  /** The `i`-th type is the first with that name, and the first entry of its list of
      compositions is `composition`. */
  predicate IsPrimary(types: seq<FeatureType>, typeId: string, i: nat, composition: seq<IdPart>) {
    FirstNamed(types, typeId, i) && types[i].compositions != [] && composition == types[i].compositions[0]
  }

  /** The primary composition is the first one of the first type with the name. */
  lemma {:induction false} PrimaryIsFirst(types: seq<FeatureType>, typeId: string, i: nat)
    requires FirstNamed(types, typeId, i)
    ensures PrimaryComposition(types, typeId) == if types[i].compositions == [] then None else Some(types[i].compositions[0])
    decreases i
  {
    if i > 0 {
      assert types[1..][i - 1] == types[i] && forall j :: 0 <= j < i - 1 ==> types[1..][j] == types[j + 1];
      PrimaryIsFirst(types[1..], typeId, i - 1);
    }
  }

  /** There is one exactly if some type has the name, and the first that does has a composition. */
  lemma {:induction false} PrimaryIff(types: seq<FeatureType>, typeId: string)
    ensures PrimaryComposition(types, typeId).Some? <==> exists i: nat :: FirstNamed(types, typeId, i) && types[i].compositions != []
    ensures PrimaryComposition(types, typeId).Some? ==> exists i: nat :: IsPrimary(types, typeId, i, PrimaryComposition(types, typeId).value)
  {
    var i := 0;
    while i < |types| && types[i].name != typeId
      invariant 0 <= i <= |types| && forall j :: 0 <= j < i ==> types[j].name != typeId
      invariant PrimaryComposition(types, typeId) == PrimaryComposition(types[i..], typeId)
    {
      assert types[i..][0] == types[i] && types[i..][1..] == types[i + 1..];
      i := i + 1;
    }
    if i < |types| {
      assert FirstNamed(types, typeId, i);
      PrimaryIsFirst(types, typeId, i);
      assert types[i].compositions != [] ==> IsPrimary(types, typeId, i, types[i].compositions[0]);
      assert forall k: nat :: FirstNamed(types, typeId, k) ==> k == i;
    }
  }

  /** `f` has the type and, without optional parts, the id asked for. */
  predicate Matches(f: Feature, typeId: string, query: seq<KeyValue>, composition: seq<IdPart>) {
    f.typeId == typeId && StripOptional(f.parts, composition) == StripOptional(query, composition)
  }

  /** Where ids are in the order of the composition: a feature is a match exactly if it has the
      type asked for and agrees with the query on all mandatory parts. */
  lemma {:induction false} MatchesIff(f: Feature, typeId: string, query: seq<KeyValue>, composition: seq<IdPart>)
    requires DistinctLabels(composition) && InOrder(f.parts, composition) && InOrder(query, composition)
    ensures Matches(f, typeId, query, composition) <==> f.typeId == typeId && SameMandatory(f.parts, query, composition)
  {
    StripsAgree(f.parts, query, composition);
  }

  /** `r` is the earliest match among `fs`, or nothing if there is none. */
  ghost predicate IsFirstMatch(fs: seq<Feature>, typeId: string, query: seq<KeyValue>, composition: seq<IdPart>, r: Option<nat>) {
    match r
    case None => forall i :: 0 <= i < |fs| ==> !Matches(fs[i], typeId, query, composition)
    case Some(k) =>
      && k < |fs| && Matches(fs[k], typeId, query, composition)
      && forall i :: 0 <= i < k ==> !Matches(fs[i], typeId, query, composition)
  }

  // ---- ids as the string pool spells them -------------------------------

  function Keys(parts: seq<KeyValue>): (r: seq<string>)
    ensures |r| == |parts|
  {
    seq(|parts|, i requires 0 <= i < |parts| => parts[i].key)
  }

  /** The strings of a feature that go to the pool, in the order in which they do. */
  function Names(f: Feature): seq<string> { [f.typeId] + Keys(f.parts) }

  ghost function NameSet(f: Feature): iset<string> { iset n | n in Names(f) }

  /** Parts as they are read back: a key is an id in the pool, a value is kept as it is. */
  function RespelledParts(fold: string -> string, pool: seq<string>, parts: seq<KeyValue>): (r: seq<KeyValue>)
    ensures |r| == |parts|
  {
    seq(|parts|, i requires 0 <= i < |parts| => KeyValue(Spelling(fold, pool, parts[i].key), parts[i].value))
  }

  function Respelled(fold: string -> string, pool: seq<string>, f: Feature): Feature {
    Feature(Spelling(fold, pool, f.typeId), RespelledParts(fold, pool, f.parts))
  }

  predicate HasKeys(fold: string -> string, pool: seq<string>, parts: seq<KeyValue>) {
    forall i :: 0 <= i < |parts| ==> Has(fold, pool, parts[i].key)
  }

  predicate HasNames(fold: string -> string, pool: seq<string>, f: Feature) {
    Has(fold, pool, f.typeId) && HasKeys(fold, pool, f.parts)
  }

  lemma PartsStay(fold: string -> string, pool: seq<string>, pool': seq<string>, parts: seq<KeyValue>)
    requires pool <= pool' && HasKeys(fold, pool, parts)
    ensures HasKeys(fold, pool', parts) && RespelledParts(fold, pool', parts) == RespelledParts(fold, pool, parts)
  {
    forall i | 0 <= i < |parts| ensures Has(fold, pool', parts[i].key) && Spelling(fold, pool', parts[i].key) == Spelling(fold, pool, parts[i].key) {
      SpellingStays(fold, pool, pool', parts[i].key);
    }
  }

  /** `pool` has grown from `start` by the keys of `parts`, which are read back as `stored`. */
  ghost predicate KeysStored(fold: string -> string, start: seq<string>, pool: seq<string>, parts: seq<KeyValue>, stored: seq<KeyValue>) {
    pool == EmplacedAll(fold, start, Keys(parts)) && HasKeys(fold, pool, parts) && stored == RespelledParts(fold, pool, parts)
  }

  lemma NextPart(parts: seq<KeyValue>, i: nat, next: nat)
    requires next == i + 1 <= |parts|
    ensures parts[..next] == parts[..i] + [parts[i]]
  {}

  /** One more key goes to the pool. */
  lemma KeyEmplaced(fold: string -> string, start: seq<string>, pool: seq<string>, pool': seq<string>, parts: seq<KeyValue>, part: KeyValue,
                    stored: seq<KeyValue>, next: seq<KeyValue>, key: string)
    requires KeysStored(fold, start, pool, parts, stored) && pool' == Emplaced(fold, pool, part.key)
    requires next == parts + [part] && key == Spelling(fold, pool', part.key)
    ensures KeysStored(fold, start, pool', next, stored + [KeyValue(key, part.value)])
  {
    KeysConcat(parts, [part]);
    assert Keys([part]) == [part.key] && RespelledParts(fold, pool', [part]) == [KeyValue(key, part.value)];
    EmplacedLast(fold, start, Keys(parts), part.key);
    PartsStay(fold, pool, pool', parts);
    EmplacedHas(fold, pool, part.key);
    RespelledConcat(fold, pool', parts, [part]);
  }

  lemma KeysConcat(a: seq<KeyValue>, b: seq<KeyValue>)
    ensures Keys(a + b) == Keys(a) + Keys(b)
  {}

  lemma RespelledConcat(fold: string -> string, pool: seq<string>, a: seq<KeyValue>, b: seq<KeyValue>)
    ensures RespelledParts(fold, pool, a + b) == RespelledParts(fold, pool, a) + RespelledParts(fold, pool, b)
  {}

  /** The type goes to the pool, then the keys; those of the prefix are there already. */
  lemma IdEmplaced(fold: string -> string, pool: seq<string>, typed: seq<string>, pool': seq<string>, typeId: string, prefix: seq<KeyValue>, parts: seq<KeyValue>,
                   typeName: string, stored: seq<KeyValue>)
    requires typed == Emplaced(fold, pool, typeId) && KeysStored(fold, typed, pool', parts, stored)
    requires HasKeys(fold, pool, prefix) && typeName == Spelling(fold, typed, typeId)
    ensures pool <= pool' && pool' == EmplacedAll(fold, pool, Names(Feature(typeId, parts))) && HasNames(fold, pool', Feature(typeId, prefix + parts))
    ensures Respelled(fold, pool', Feature(typeId, prefix + parts)) == Feature(typeName, RespelledParts(fold, pool, prefix) + stored)
  {
    assert [typeId][..0] == [];
    EmplacedInTurn(fold, pool, [typeId], Keys(parts));
    EmplacedHas(fold, pool, typeId);
    SpellingStays(fold, typed, pool', typeId);
    PartsStay(fold, pool, pool', prefix);
    RespelledConcat(fold, pool', prefix, parts);
  }

  /** What a feature is read back as does not change when the pool grows. */
  lemma FeatureStays(fold: string -> string, pool: seq<string>, pool': seq<string>, f: Feature)
    requires pool <= pool' && HasNames(fold, pool, f)
    ensures HasNames(fold, pool', f) && Respelled(fold, pool', f) == Respelled(fold, pool, f)
  {
    SpellingStays(fold, pool, pool', f.typeId);
    PartsStay(fold, pool, pool', f.parts);
  }

  /** `fs` is how the features `added` are read back. */
  ghost predicate Stores(fold: string -> string, pool: seq<string>, added: seq<Feature>, fs: seq<Feature>) {
    |added| == |fs| && forall i :: 0 <= i < |added| ==> HasNames(fold, pool, added[i]) && fs[i] == Respelled(fold, pool, added[i])
  }

  lemma StoresStays(fold: string -> string, pool: seq<string>, pool': seq<string>, added: seq<Feature>, fs: seq<Feature>)
    requires pool <= pool' && Stores(fold, pool, added, fs)
    ensures Stores(fold, pool', added, fs)
  {
    forall i | 0 <= i < |added| ensures HasNames(fold, pool', added[i]) && Respelled(fold, pool', added[i]) == Respelled(fold, pool, added[i]) {
      FeatureStays(fold, pool, pool', added[i]);
    }
  }

  /** What a layer reads back does not change when the pool grows. */
  lemma ReadStays(fold: string -> string, pool: seq<string>, pool': seq<string>, added: seq<Feature>, fs: seq<Feature>, prefix: seq<KeyValue>, stored: seq<KeyValue>)
    requires pool <= pool' && Stores(fold, pool, added, fs) && HasKeys(fold, pool, prefix) && stored == RespelledParts(fold, pool, prefix)
    ensures Stores(fold, pool', added, fs) && HasKeys(fold, pool', prefix) && stored == RespelledParts(fold, pool', prefix)
  {
    StoresStays(fold, pool, pool', added, fs);
    PartsStay(fold, pool, pool', prefix);
  }

  // ---- what the index finds ---------------------------------------------

  /** The index entries of features added as `added` and read back as `fs`: the hash is of the
      type as it was given, but of the id parts as they are read back. */
  function EntriesOf(added: seq<Feature>, fs: seq<Feature>, types: seq<FeatureType>, hash: (string, seq<KeyValue>) -> nat): (s: seq<Entry>)
    requires |added| == |fs| && forall i :: 0 <= i < |added| ==> PrimaryComposition(types, added[i].typeId).Some?
    ensures |s| == |fs|
  {
    seq(|fs|, i requires 0 <= i < |fs| => EntryOf(i, added[i], fs[i], types, hash))
  }

  function EntryOf(i: nat, given: Feature, stored: Feature, types: seq<FeatureType>, hash: (string, seq<KeyValue>) -> nat): Entry
    requires PrimaryComposition(types, given.typeId).Some?
  {
    Entry(i, hash(given.typeId, StripOptional(stored.parts, PrimaryComposition(types, given.typeId).value)))
  }

  lemma EntriesGrow(added: seq<Feature>, fs: seq<Feature>, given: Feature, stored: Feature, types: seq<FeatureType>, hash: (string, seq<KeyValue>) -> nat)
    requires |added| == |fs| && forall i :: 0 <= i < |added| ==> PrimaryComposition(types, added[i].typeId).Some?
    requires PrimaryComposition(types, given.typeId).Some?
    ensures EntriesOf(added + [given], fs + [stored], types, hash) == EntriesOf(added, fs, types, hash) + [EntryOf(|fs|, given, stored, types, hash)]
  {}

  /** A lookup meets the feature: it has the hash asked for, and reads back as a match. */
  predicate Hit(e: Entry, stored: Feature, typeId: string, query: seq<KeyValue>, composition: seq<IdPart>, hash: (string, seq<KeyValue>) -> nat) {
    e.hash == hash(typeId, StripOptional(query, composition)) && Matches(stored, typeId, query, composition)
  }

  /** `r` is the earliest feature that a lookup meets. */
  ghost predicate IsFirstHit(entries: seq<Entry>, fs: seq<Feature>, typeId: string, query: seq<KeyValue>, composition: seq<IdPart>, hash: (string, seq<KeyValue>) -> nat, r: Option<nat>)
    requires |entries| == |fs|
  {
    match r
    case None => forall i :: 0 <= i < |fs| ==> !Hit(entries[i], fs[i], typeId, query, composition, hash)
    case Some(k) =>
      && k < |fs| && Hit(entries[k], fs[k], typeId, query, composition, hash)
      && forall i :: 0 <= i < k ==> !Hit(entries[i], fs[i], typeId, query, composition, hash)
  }

  /** The pool has kept the type of a feature and, of its parts, what a lookup compares. */
  predicate Kept(given: Feature, stored: Feature, types: seq<FeatureType>)
    requires PrimaryComposition(types, given.typeId).Some?
  {
    var composition := PrimaryComposition(types, given.typeId).value;
    stored.typeId == given.typeId && StripOptional(stored.parts, composition) == StripOptional(given.parts, composition)
  }

  /** Whatever the hash: a feature is met under exactly the ids it was added with if and only
      if the pool has kept its spelling. */
  lemma KeptIff(i: nat, given: Feature, stored: Feature, types: seq<FeatureType>, hash: (string, seq<KeyValue>) -> nat)
    requires PrimaryComposition(types, given.typeId).Some?
    ensures Kept(given, stored, types) <==>
            forall typeId, query :: PrimaryComposition(types, typeId).Some? ==>
              var composition := PrimaryComposition(types, typeId).value;
              (Hit(EntryOf(i, given, stored, types, hash), stored, typeId, query, composition, hash) <==> Matches(given, typeId, query, composition))
  {
    var composition := PrimaryComposition(types, given.typeId).value;
    assert Matches(given, given.typeId, given.parts, composition);
  }

  ghost predicate AllKept(added: seq<Feature>, fs: seq<Feature>, types: seq<FeatureType>) {
    |added| == |fs| && forall i :: 0 <= i < |added| ==> PrimaryComposition(types, added[i].typeId).Some? && Kept(added[i], fs[i], types)
  }

  /** Every lookup that does not raise gives what a scan of the features as added would. */
  ghost predicate IndexIsScan(added: seq<Feature>, fs: seq<Feature>, types: seq<FeatureType>, hash: (string, seq<KeyValue>) -> nat)
    requires |added| == |fs| && forall i :: 0 <= i < |added| ==> PrimaryComposition(types, added[i].typeId).Some?
  {
    forall typeId, query, r: Option<nat> :: PrimaryComposition(types, typeId).Some? ==>
      var composition := PrimaryComposition(types, typeId).value;
      (IsFirstHit(EntriesOf(added, fs, types, hash), fs, typeId, query, composition, hash, r) <==> IsFirstMatch(added, typeId, query, composition, r))
  }

  /** No feature before the `i`-th was added with the same id. */
  ghost predicate FirstWithItsId(added: seq<Feature>, types: seq<FeatureType>, i: nat)
    requires i < |added| && PrimaryComposition(types, added[i].typeId).Some?
  {
    forall j :: 0 <= j < i ==> !Matches(added[j], added[i].typeId, added[i].parts, PrimaryComposition(types, added[i].typeId).value)
  }

  lemma KeptScans(added: seq<Feature>, fs: seq<Feature>, types: seq<FeatureType>, hash: (string, seq<KeyValue>) -> nat, typeId: string, query: seq<KeyValue>, r: Option<nat>)
    requires AllKept(added, fs, types) && PrimaryComposition(types, typeId).Some?
    ensures var composition := PrimaryComposition(types, typeId).value;
            IsFirstHit(EntriesOf(added, fs, types, hash), fs, typeId, query, composition, hash, r) <==> IsFirstMatch(added, typeId, query, composition, r)
  {
    var entries, composition := EntriesOf(added, fs, types, hash), PrimaryComposition(types, typeId).value;
    forall i | 0 <= i < |fs| ensures Hit(entries[i], fs[i], typeId, query, composition, hash) <==> Matches(added[i], typeId, query, composition) {
      KeptIff(i, added[i], fs[i], types, hash);
    }
  }

  /** Whatever the hash: if the pool has kept the spelling of every feature, every lookup is a
      scan. If every lookup is a scan, the pool has kept the spelling of every feature that was
      the first with its id; so where ids are distinct, the one holds exactly if the other does. */
  lemma ScanIff(added: seq<Feature>, fs: seq<Feature>, types: seq<FeatureType>, hash: (string, seq<KeyValue>) -> nat)
    requires |added| == |fs| && forall i :: 0 <= i < |added| ==> PrimaryComposition(types, added[i].typeId).Some?
    ensures AllKept(added, fs, types) ==> IndexIsScan(added, fs, types, hash)
    ensures IndexIsScan(added, fs, types, hash) ==> forall i :: 0 <= i < |added| && FirstWithItsId(added, types, i) ==> Kept(added[i], fs[i], types)
    ensures (forall i :: 0 <= i < |added| ==> FirstWithItsId(added, types, i)) ==> (AllKept(added, fs, types) <==> IndexIsScan(added, fs, types, hash))
  {
    if AllKept(added, fs, types) {
      forall typeId, query, r: Option<nat> | PrimaryComposition(types, typeId).Some?
        ensures var composition := PrimaryComposition(types, typeId).value;
                IsFirstHit(EntriesOf(added, fs, types, hash), fs, typeId, query, composition, hash, r) <==> IsFirstMatch(added, typeId, query, composition, r)
      {
        KeptScans(added, fs, types, hash, typeId, query, r);
      }
    }
    if IndexIsScan(added, fs, types, hash) {
      forall i | 0 <= i < |added| && FirstWithItsId(added, types, i) ensures Kept(added[i], fs[i], types) {
        var f, composition := added[i], PrimaryComposition(types, added[i].typeId).value;
        assert IsFirstMatch(added, f.typeId, f.parts, composition, Some(i));
        assert IsFirstHit(EntriesOf(added, fs, types, hash), fs, f.typeId, f.parts, composition, hash, Some(i));
      }
    }
  }

  // ---- when the spelling of an id is kept -------------------------------

  /** A pool that has grown by a feature's names gives them all back as they are if and only if
      it did not spell one differently before, and no two of them are the same but for case. */
  lemma NamesKeptIff(fold: string -> string, pool: seq<string>, pool': seq<string>, f: Feature)
    requires pool <= pool' && HasNames(fold, pool', f) && forall i :: |pool| <= i < |pool'| ==> pool'[i] in Names(f)
    ensures Respelled(fold, pool', f) == f <==> Keeps(fold, pool, NameSet(f)) && Apart(fold, NameSet(f))
  {
    var names := NameSet(f);
    forall n | n in names ensures Has(fold, pool', n) && (Respelled(fold, pool', f) == f ==> Spelling(fold, pool', n) == n) {
      var k :| 0 <= k < |Names(f)| && Names(f)[k] == n;
      if k > 0 {
        assert n == f.parts[k - 1].key;
        assert RespelledParts(fold, pool', f.parts)[k - 1].key == Spelling(fold, pool', n);
      }
    }
    KeepsIff(fold, pool, pool', names);
    if Keeps(fold, pool', names) {
      assert Names(f)[0] == f.typeId && forall i :: 0 <= i < |f.parts| ==> Names(f)[i + 1] == f.parts[i].key;
      assert RespelledParts(fold, pool', f.parts) == f.parts;
    }
  }

  lemma AddedAsGiven(fold: string -> string, pool: seq<string>, pool': seq<string>, typeId: string, prefix: seq<KeyValue>, parts: seq<KeyValue>)
    requires pool' == EmplacedAll(fold, pool, Names(Feature(typeId, parts))) && HasNames(fold, pool', Feature(typeId, prefix + parts))
    ensures var given := Feature(typeId, prefix + parts);
            Respelled(fold, pool', given) == given <==> Keeps(fold, pool, NameSet(given)) && Apart(fold, NameSet(given))
  {
    EmplacedAllHas(fold, pool, Names(Feature(typeId, parts)));
    KeysConcat(prefix, parts);
    NamesKeptIff(fold, pool, pool', Feature(typeId, prefix + parts));
  }

  /** The labels of the composition are different, and not by case alone. */
  predicate LabelsApart(fold: string -> string, composition: seq<IdPart>) {
    forall i, j :: 0 <= i < j < |composition| ==> fold(composition[i].key) != fold(composition[j].key)
  }

  /** From the first key on that the pool spells differently, no part is mandatory. */
  ghost predicate OnlyOptionalLost(fold: string -> string, pool: seq<string>, kvs: seq<KeyValue>, composition: seq<IdPart>) {
    forall i, j :: 0 <= i <= j < |kvs| && Spelling(fold, pool, kvs[i].key) != kvs[i].key ==> !Mandatory(kvs[j].key, composition)
  }

  lemma {:induction false} NoneMandatory(kvs: seq<KeyValue>, composition: seq<IdPart>)
    ensures OnlyMandatory(kvs, composition) == [] <==> forall j :: 0 <= j < |kvs| ==> !Mandatory(kvs[j].key, composition)
  {
    if kvs != [] {
      NoneMandatory(kvs[1..], composition);
      assert forall j :: 1 <= j < |kvs| ==> kvs[1..][j - 1] == kvs[j];
    }
  }

  lemma {:induction false} InOrderLabel(kvs: seq<KeyValue>, composition: seq<IdPart>)
    requires kvs != [] && InOrder(kvs, composition)
    ensures exists i :: 0 <= i < |composition| && composition[i].key == kvs[0].key
  {
    if kvs[0].key != composition[0].key {
      InOrderLabel(kvs, composition[1..]);
      var i :| 0 <= i < |composition| - 1 && composition[1..][i].key == kvs[0].key;
      assert composition[i + 1].key == kvs[0].key;
    }
  }

  /** A key that is spelled differently is not found in the composition, and the walk is at its
      end: that part and all behind it are stripped. */
  lemma LostKey(fold: string -> string, pool: seq<string>, kvs: seq<KeyValue>, composition: seq<IdPart>)
    requires kvs != [] && LabelsApart(fold, composition) && InOrder(kvs, composition)
    requires Spelling(fold, pool, kvs[0].key) != kvs[0].key
    ensures StripOptional(RespelledParts(fold, pool, kvs), composition) == []
  {
    var key := Spelling(fold, pool, kvs[0].key);
    InOrderLabel(kvs, composition);
    var at :| 0 <= at < |composition| && composition[at].key == kvs[0].key;
    forall i | 0 <= i < |composition| ensures composition[i].key != key { if i != at { assert fold(composition[i].key) != fold(key); } }
    NotFound(key, composition);
    NothingLeft(RespelledParts(fold, pool, kvs)[1..]);
  }

  lemma LabelsApartFrom(fold: string -> string, composition: seq<IdPart>, from: nat)
    requires LabelsApart(fold, composition) && from <= |composition|
    ensures LabelsApart(fold, composition[from..]) && DistinctLabels(composition)
  {}

  lemma OnlyOptionalLostTail(fold: string -> string, pool: seq<string>, kvs: seq<KeyValue>, composition: seq<IdPart>)
    requires kvs != [] && Spelling(fold, pool, kvs[0].key) == kvs[0].key
    ensures OnlyOptionalLost(fold, pool, kvs, composition) <==> OnlyOptionalLost(fold, pool, kvs[1..], composition)
  {
    assert forall j :: 1 <= j < |kvs| ==> kvs[1..][j - 1] == kvs[j];
    assert forall j :: 0 <= j < |kvs| - 1 ==> kvs[1..][j] == kvs[j + 1];
  }

  lemma {:induction false} StripFirst(kvs: seq<KeyValue>, composition: seq<IdPart>)
    requires kvs != [] && composition != [] && kvs[0].key == composition[0].key
    ensures StripOptional(kvs, composition) == (if composition[0].isOptional then [] else [kvs[0]]) + StripOptional(kvs[1..], composition[1..])
  {
    assert Seek(kvs[0].key, composition) == (composition[1..], composition[0].isOptional);
  }

  lemma {:induction false} StripSkips(kvs: seq<KeyValue>, composition: seq<IdPart>)
    requires kvs != [] && composition != [] && kvs[0].key != composition[0].key
    ensures StripOptional(kvs, composition) == StripOptional(kvs, composition[1..])
  {
    assert Seek(kvs[0].key, composition) == Seek(kvs[0].key, composition[1..]);
  }

  lemma SameFront(front: seq<KeyValue>, a: seq<KeyValue>, b: seq<KeyValue>)
    ensures front + a == front + b <==> a == b
  {
    assert (front + a)[|front|..] == a && (front + b)[|front|..] == b;
  }

  predicate PartsKept(fold: string -> string, pool: seq<string>, kvs: seq<KeyValue>, composition: seq<IdPart>) {
    StripOptional(RespelledParts(fold, pool, kvs), composition) == StripOptional(kvs, composition)
  }

  lemma KeysMatterLost(fold: string -> string, pool: seq<string>, kvs: seq<KeyValue>, whole: seq<IdPart>, from: nat)
    requires from <= |whole| && LabelsApart(fold, whole) && kvs != [] && InOrder(kvs, whole[from..])
    requires Spelling(fold, pool, kvs[0].key) != kvs[0].key
    ensures PartsKept(fold, pool, kvs, whole[from..]) <==> OnlyOptionalLost(fold, pool, kvs, whole)
  {
    LabelsApartFrom(fold, whole, from);
    LostKey(fold, pool, kvs, whole[from..]);
    StripKeepsMandatory(kvs, whole, from);
    NoneMandatory(kvs, whole);
  }

  lemma KeysMatterKept(fold: string -> string, pool: seq<string>, kvs: seq<KeyValue>, composition: seq<IdPart>)
    requires kvs != [] && composition != [] && kvs[0].key == composition[0].key && Spelling(fold, pool, kvs[0].key) == kvs[0].key
    ensures PartsKept(fold, pool, kvs, composition) <==> PartsKept(fold, pool, kvs[1..], composition[1..])
  {
    var spelled := RespelledParts(fold, pool, kvs);
    assert spelled[0] == kvs[0] && spelled[1..] == RespelledParts(fold, pool, kvs[1..]);
    StripFirst(kvs, composition);
    StripFirst(spelled, composition);
    SameFront(if composition[0].isOptional then [] else [kvs[0]], StripOptional(spelled[1..], composition[1..]), StripOptional(kvs[1..], composition[1..]));
  }

  lemma KeysMatterSkip(fold: string -> string, pool: seq<string>, kvs: seq<KeyValue>, composition: seq<IdPart>)
    requires kvs != [] && composition != [] && kvs[0].key != composition[0].key && Spelling(fold, pool, kvs[0].key) == kvs[0].key
    ensures PartsKept(fold, pool, kvs, composition) <==> PartsKept(fold, pool, kvs, composition[1..])
  {
    StripSkips(kvs, composition);
    StripSkips(RespelledParts(fold, pool, kvs), composition);
  }

  /** For keys in the order of a composition: what a lookup compares of them is kept if and
      only if no part is mandatory from the first key on that the pool spells differently. */
  lemma {:induction false} KeysMatter(fold: string -> string, pool: seq<string>, kvs: seq<KeyValue>, whole: seq<IdPart>, from: nat)
    requires from <= |whole| && LabelsApart(fold, whole) && InOrder(kvs, whole[from..])
    ensures PartsKept(fold, pool, kvs, whole[from..]) <==> OnlyOptionalLost(fold, pool, kvs, whole)
    decreases |whole| - from, |kvs|
  {
    if kvs != [] {
      assert whole[from..][0] == whole[from] && whole[from..][1..] == whole[from + 1..];
      if Spelling(fold, pool, kvs[0].key) != kvs[0].key {
        KeysMatterLost(fold, pool, kvs, whole, from);
      } else if kvs[0].key == whole[from].key {
        KeysMatterKept(fold, pool, kvs, whole[from..]);
        KeysMatter(fold, pool, kvs[1..], whole, from + 1);
        OnlyOptionalLostTail(fold, pool, kvs, whole);
      } else {
        KeysMatterSkip(fold, pool, kvs, whole[from..]);
        KeysMatter(fold, pool, kvs, whole, from + 1);
      }
    }
  }

  /** In a sorted index, a match at `at` is the earliest if nothing from the first entry with
      its hash up to it matches. */
  lemma EarliestInIndex(fs: seq<Feature>, index: seq<Entry>, entries: seq<Entry>, lo: nat, at: nat, hash: nat, j: nat)
    requires Sorted(index) && multiset(index) == multiset(entries) && |entries| == |fs| && j < |fs|
    requires entries[j] == Entry(j, hash) && lo <= at <= |index|
    requires forall i :: 0 <= i < lo ==> index[i].hash < hash
    requires at < |index| ==> index[at].hash > hash || (index[at].hash == hash && j < index[at].addr)
    ensures exists i :: lo <= i < at && index[i] == Entry(j, hash)
  {
    assert entries[j] in multiset(entries);
    assert Entry(j, hash) in multiset(index);
    forall i | at < i < |index| ensures index[i] != Entry(j, hash) {
      assert !Before(index[i], index[at]);
    }
    var i :| 0 <= i < |index| && index[i] == Entry(j, hash);
    assert i < at;
  }

  /** The entries from `lo` up to `at` point to features that do not match. */
  ghost predicate Passed(fs: seq<Feature>, index: seq<Entry>, lo: nat, at: nat, typeId: string, query: seq<KeyValue>, composition: seq<IdPart>) {
    at <= |index| && forall i :: lo <= i < at ==> index[i].addr < |fs| && !Matches(fs[index[i].addr], typeId, query, composition)
  }

  lemma PassedNext(fs: seq<Feature>, index: seq<Entry>, lo: nat, at: nat, next: nat, typeId: string, query: seq<KeyValue>, composition: seq<IdPart>)
    requires Passed(fs, index, lo, at, typeId, query, composition) && next == at + 1 <= |index|
    requires index[at].addr < |fs| && !Matches(fs[index[at].addr], typeId, query, composition)
    ensures Passed(fs, index, lo, next, typeId, query, composition)
  {}

  /** What a lookup has passed when it stops at `at`: no feature is met that the entry at `at`,
      if it has the hash, does not point to or come before. */
  lemma PassedAll(fs: seq<Feature>, index: seq<Entry>, entries: seq<Entry>, lo: nat, at: nat, typeId: string, query: seq<KeyValue>, composition: seq<IdPart>,
                  hash: (string, seq<KeyValue>) -> nat, h: nat, end: nat)
    requires Sorted(index) && multiset(index) == multiset(entries) && |entries| == |fs| && end <= |fs|
    requires forall j :: 0 <= j < |fs| ==> entries[j].addr == j
    requires lo <= at <= |index| && Passed(fs, index, lo, at, typeId, query, composition)
    requires h == hash(typeId, StripOptional(query, composition)) && forall i :: 0 <= i < lo ==> index[i].hash < h
    requires at < |index| ==> index[at].hash > h || (index[at].hash == h && end <= index[at].addr)
    ensures forall j :: 0 <= j < end ==> !Hit(entries[j], fs[j], typeId, query, composition, hash)
  {
    forall j | 0 <= j < end ensures !Hit(entries[j], fs[j], typeId, query, composition, hash) {
      if Hit(entries[j], fs[j], typeId, query, composition, hash) {
        EarliestInIndex(fs, index, entries, lo, at, h, j);
      }
    }
  }

  class FeatureLayer {
    /** Strings that differ in case only have the same fold. */
    const fold: string -> string
    const featureTypes: seq<FeatureType>
    /** Any hash function. */
    const hashFeatureId: (string, seq<KeyValue>) -> nat
    /** Whether parts (behind an id prefix of some length) fit a composition. */
    const partsMatch: (seq<IdPart>, nat, seq<KeyValue>) -> bool
    /** The string pool. */
    var strings: seq<string>
    /** The prefix and the features as they are read back through the pool. */
    var featureIdPrefix: seq<KeyValue>
    var features: seq<Feature>
    var featureHashIndex: seq<Entry>
    var featureHashIndexNeedsSorting: bool
    /** The prefix and the features as they were given. */
    ghost var givenPrefix: seq<KeyValue>
    ghost var added: seq<Feature>

    ghost predicate Valid()
      reads this
    {
      && Stores(fold, strings, added, features)
      && HasKeys(fold, strings, givenPrefix) && featureIdPrefix == RespelledParts(fold, strings, givenPrefix)
      && (forall i :: 0 <= i < |added| ==> PrimaryComposition(featureTypes, added[i].typeId).Some?)
      && multiset(featureHashIndex) == multiset(EntriesOf(added, features, featureTypes, hashFeatureId))
      && (!featureHashIndexNeedsSorting ==> Sorted(featureHashIndex))
    }

    constructor (fold: string -> string, strings: seq<string>, featureTypes: seq<FeatureType>, hashFeatureId: (string, seq<KeyValue>) -> nat, partsMatch: (seq<IdPart>, nat, seq<KeyValue>) -> bool)
      ensures Valid() && added == [] && givenPrefix == [] && this.strings == strings && this.fold == fold
      ensures this.featureTypes == featureTypes && this.hashFeatureId == hashFeatureId && this.partsMatch == partsMatch
    {
      this.fold, this.strings := fold, strings;
      this.featureTypes, this.hashFeatureId, this.partsMatch := featureTypes, hashFeatureId, partsMatch;
      featureIdPrefix, features, featureHashIndex, featureHashIndexNeedsSorting := [], [], [], false;
      givenPrefix, added := [], [];
    }

    /** Whoever shares the pool may add to it. */
    method EmplaceString(s: string) returns (id: nat)
      requires Valid()
      modifies this`strings
      ensures Valid() && strings == Emplaced(fold, old(strings), s) && id < |strings| && strings[id] == Spelling(fold, strings, s)
    {
      ghost var was := strings;
      strings, id := Emplace(fold, strings, s);
      ReadStays(fold, was, strings, added, features, givenPrefix, featureIdPrefix);
    }

    /** The keys of some parts go to the pool. */
    method EmplaceKeys(parts: seq<KeyValue>) returns (stored: seq<KeyValue>)
      modifies this`strings
      ensures KeysStored(fold, old(strings), strings, parts, stored)
    {
      stored := [];
      for i := 0 to |parts|
        invariant KeysStored(fold, old(strings), strings, parts[..i], stored)
      {
        ghost var was := strings;
        var pool, id := Emplace(fold, strings, parts[i].key);
        NextPart(parts, i, i + 1);
        KeyEmplaced(fold, old(strings), was, pool, parts[..i], parts[i], stored, parts[..i + 1], pool[id]);
        strings, stored := pool, stored + [KeyValue(pool[id], parts[i].value)];
      }
      assert parts[..|parts|] == parts;
    }

    /** Common id parts; refused once there are features, or if some type's primary
        composition does not start with them. */
    method SetIdPrefix(prefix: seq<KeyValue>) returns (ok: bool)
      requires Valid()
      modifies this`featureIdPrefix, this`givenPrefix, this`strings
      ensures Valid()
      ensures ok <==> features == [] && forall i :: 0 <= i < |featureTypes| && featureTypes[i].compositions != [] ==> partsMatch(featureTypes[i].compositions[0], 0, prefix)
      ensures givenPrefix == if ok then prefix else old(givenPrefix)
      ensures strings == if ok then EmplacedAll(fold, old(strings), Keys(prefix)) else old(strings)
    {
      if features != [] { return false; }
      for i := 0 to |featureTypes|
        invariant forall j :: 0 <= j < i && featureTypes[j].compositions != [] ==> partsMatch(featureTypes[j].compositions[0], 0, prefix)
      {
        if featureTypes[i].compositions != [] && !partsMatch(featureTypes[i].compositions[0], 0, prefix) { return false; }
      }
      featureIdPrefix := EmplaceKeys(prefix);
      givenPrefix := prefix;
      return true;
    }

    /** A new feature goes to the end, its index entry too, and the index counts as unsorted.
        An empty id, an unknown type, and parts that do not fit are refused. */
    method NewFeature(typeId: string, parts: seq<KeyValue>) returns (ok: bool)
      requires Valid()
      modifies this`strings, this`features, this`added, this`featureHashIndex, this`featureHashIndexNeedsSorting
      ensures Valid()
      ensures ok <==> parts != [] && exists i: nat :: FirstNamed(featureTypes, typeId, i) && featureTypes[i].compositions != []
                                                      && partsMatch(featureTypes[i].compositions[0], |featureIdPrefix|, parts)
      ensures !ok ==> unchanged(this)
      ensures ok ==> added == old(added) + [Feature(typeId, givenPrefix + parts)]
      ensures ok ==> strings == EmplacedAll(fold, old(strings), Names(Feature(typeId, parts)))
      ensures ok ==> var names := NameSet(Feature(typeId, givenPrefix + parts));
                     features[|features| - 1] == added[|added| - 1] <==> Keeps(fold, old(strings), names) && Apart(fold, names)
    {
      PrimaryIff(featureTypes, typeId);
      if parts == [] { return false; }
      var composition := PrimaryComposition(featureTypes, typeId);
      if composition.None? || !partsMatch(composition.value, |featureIdPrefix|, parts) { return false; }
      ghost var was := strings;
      var typeName, stored := StoreId(typeId, parts);
      var idParts := featureIdPrefix + stored;
      var fullStrippedFeatureId := StripOptionalIdParts(idParts, composition.value);
      AddFeature(typeId, Feature(typeName, idParts), Feature(typeId, givenPrefix + parts), fullStrippedFeatureId);
      AddedAsGiven(fold, was, strings, typeId, givenPrefix, parts);
      return true;
    }

    /** The type and the keys of a new id go to the pool. */
    method StoreId(typeId: string, parts: seq<KeyValue>) returns (typeName: string, stored: seq<KeyValue>)
      requires Valid()
      modifies this`strings
      ensures Valid() && strings == EmplacedAll(fold, old(strings), Names(Feature(typeId, parts)))
      ensures HasNames(fold, strings, Feature(typeId, givenPrefix + parts))
      ensures Feature(typeName, featureIdPrefix + stored) == Respelled(fold, strings, Feature(typeId, givenPrefix + parts))
    {
      ghost var was := strings;
      var typed, id := Emplace(fold, strings, typeId);
      strings, typeName := typed, typed[id];
      stored := EmplaceKeys(parts);
      IdEmplaced(fold, was, typed, strings, typeId, givenPrefix, parts, typeName, stored);
      ReadStays(fold, was, strings, added, features, givenPrefix, featureIdPrefix);
    }

    method AddFeature(typeId: string, feature: Feature, ghost given: Feature, stripped: seq<KeyValue>)
      requires Valid() && given.typeId == typeId && PrimaryComposition(featureTypes, typeId).Some?
      requires HasNames(fold, strings, given) && feature == Respelled(fold, strings, given)
      requires stripped == StripOptional(feature.parts, PrimaryComposition(featureTypes, typeId).value)
      modifies this`features, this`added, this`featureHashIndex, this`featureHashIndexNeedsSorting
      ensures Valid() && features == old(features) + [feature] && added == old(added) + [given]
    {
      EntriesGrow(added, features, given, feature, featureTypes, hashFeatureId);
      var entry := Entry(|features|, hashFeatureId(typeId, stripped));
      features := features + [feature];
      added := added + [given];
      featureHashIndex := featureHashIndex + [entry];
      featureHashIndexNeedsSorting := true;
    }

    method SortFeatureHashIndex()
      requires Valid()
      modifies this`featureHashIndex, this`featureHashIndexNeedsSorting
      ensures Valid() && !featureHashIndexNeedsSorting && Sorted(featureHashIndex)
    {
      if !featureHashIndexNeedsSorting { return; }
      featureHashIndexNeedsSorting := false;
      SortSorts(featureHashIndex);
      featureHashIndex := Sort(featureHashIndex);
    }

    /** The earliest feature that has the hash asked for and reads back as a match, or nothing;
        an unknown type raises. Where the pool has kept the spelling of all ids, that is the
        earliest one added with the id asked for. Only the order of the index is changed. */
    method Find(typeId: string, query: seq<KeyValue>) returns (ok: bool, result: Option<nat>)
      requires Valid()
      modifies this`featureHashIndex, this`featureHashIndexNeedsSorting
      ensures Valid()
      ensures ok <==> exists i: nat :: FirstNamed(featureTypes, typeId, i) && featureTypes[i].compositions != []
      ensures forall i: nat :: FirstNamed(featureTypes, typeId, i) && featureTypes[i].compositions != [] ==>
                && IsFirstHit(EntriesOf(added, features, featureTypes, hashFeatureId), features, typeId, query, featureTypes[i].compositions[0], hashFeatureId, result)
                && (AllKept(added, features, featureTypes) ==> IsFirstMatch(added, typeId, query, featureTypes[i].compositions[0], result))
    {
      result := None;
      PrimaryIff(featureTypes, typeId);
      var composition := PrimaryComposition(featureTypes, typeId);
      if composition.None? { return false, None; }
      var stripped := StripOptionalIdParts(query, composition.value);
      var hash := hashFeatureId(typeId, stripped);
      SortFeatureHashIndex();
      var lo := LowerBound(featureHashIndex, hash);
      result := Probe(typeId, query, composition.value, stripped, hash, lo);
      if AllKept(added, features, featureTypes) {
        KeptScans(added, features, featureTypes, hashFeatureId, typeId, query, result);
      }
      return true, result;
    }

    /** The entries with the right hash, in order; collisions are passed over. */
    method Probe(typeId: string, query: seq<KeyValue>, composition: seq<IdPart>, stripped: seq<KeyValue>, hash: nat, lo: nat) returns (result: Option<nat>)
      requires Valid() && Sorted(featureHashIndex) && PrimaryComposition(featureTypes, typeId) == Some(composition)
      requires stripped == StripOptional(query, composition) && hash == hashFeatureId(typeId, stripped)
      requires lo <= |featureHashIndex| && (forall i :: 0 <= i < lo ==> featureHashIndex[i].hash < hash)
      requires forall i :: lo <= i < |featureHashIndex| ==> featureHashIndex[i].hash >= hash
      ensures IsFirstHit(EntriesOf(added, features, featureTypes, hashFeatureId), features, typeId, query, composition, hashFeatureId, result)
    {
      ghost var entries := EntriesOf(added, features, featureTypes, hashFeatureId);
      var it := lo;
      while it < |featureHashIndex| && featureHashIndex[it].hash == hash
        invariant lo <= it <= |featureHashIndex| && Passed(features, featureHashIndex, lo, it, typeId, query, composition)
      {
        InIndex(it);
        var addr := featureHashIndex[it].addr;
        if features[addr].typeId == typeId {
          var featureIdParts := StripOptionalIdParts(features[addr].parts, composition);
          if featureIdParts == stripped {
            PassedAll(features, featureHashIndex, entries, lo, it, typeId, query, composition, hashFeatureId, hash, addr);
            return Some(addr);
          }
        }
        PassedNext(features, featureHashIndex, lo, it, it + 1, typeId, query, composition);
        it := it + 1;
      }
      PassedAll(features, featureHashIndex, entries, lo, it, typeId, query, composition, hashFeatureId, hash, |features|);
      return None;
    }

    /** An index entry is the entry of the feature it points to. */
    lemma InIndex(i: nat)
      requires Valid() && i < |featureHashIndex|
      ensures var a := featureHashIndex[i].addr; a < |features| && featureHashIndex[i] == EntriesOf(added, features, featureTypes, hashFeatureId)[a]
    {
      assert featureHashIndex[i] in multiset(featureHashIndex);
    }
  }

  lemma PointIsFirst(parts: seq<KeyValue>, composition: seq<IdPart>)
    ensures IsFirstMatch([Feature("Point", parts)], "Point", parts, composition, Some(0))
  {}

  lemma PointIsRespelled(fold: string -> string, pool: seq<string>)
    requires ["point"] <= pool && fold("Point") == fold("point")
    ensures Has(fold, pool, "Point") && Spelling(fold, pool, "Point") != "Point"
  {
    assert fold(["point"][0]) == fold("Point") && "point"[0] != "Point"[0];
    SpellingStays(fold, ["point"], pool, "Point");
  }

  /** The pool has "point", as mapget's own pools do. A feature of type "Point" is accepted, and
      not found under the id that it was added with, though a scan would find it. */
  method PointIsLost(fold: string -> string, hash: (string, seq<KeyValue>) -> nat, id: Value) returns (accepted: bool, known: bool, found: Option<nat>)
    requires fold("Point") == fold("point")
    ensures accepted && known && found == None
    ensures IsFirstMatch([Feature("Point", [KeyValue("id", id)])], "Point", [KeyValue("id", id)], [IdPart("id", false)], Some(0))
  {
    var composition, parts := [IdPart("id", false)], [KeyValue("id", id)];
    PointIsFirst(parts, composition);
    var layer := new FeatureLayer(fold, ["point"], [FeatureType("Point", [composition])], hash, SameLabels);
    assert layer.featureTypes[0].name == "Point" && FirstNamed(layer.featureTypes, "Point", 0);
    accepted := layer.NewFeature("Point", parts);
    PointIsRespelled(fold, layer.strings);
    assert layer.features[0].typeId != "Point";
    known, found := layer.Find("Point", parts);
  }

  /** The labels of the composition behind the first `from`, in their order. */
  predicate SameLabels(composition: seq<IdPart>, from: nat, kvs: seq<KeyValue>) {
    |kvs| + from == |composition| && forall i :: 0 <= i < |kvs| ==> kvs[i].key == composition[from + i].key
  }

  const AREA_LANE := [IdPart("areaId", false), IdPart("laneId", false)]

  /** A type with two compositions: lanes have an area and a number, and may be referred to by
      the number alone. */
  const LANE := FeatureType("Lane", [AREA_LANE, [IdPart("laneId", false)]])

  lemma LaneIds(area: KeyValue, lane: KeyValue)
    requires area.key == "areaId" && lane.key == "laneId"
    ensures StripOptional([area, lane], AREA_LANE) == [area, lane] && StripOptional([lane], AREA_LANE) == [lane]
  {
    assert AREA_LANE[0].key[0] != AREA_LANE[1].key[0];
    StripFirst([area, lane], AREA_LANE);
    StripSkips([lane], AREA_LANE);
    StripFirst([lane], AREA_LANE[1..]);
    assert [area, lane][1..] == [lane] && [lane][1..] == [];
  }

  /** A layer of lanes with one feature in it: it is found under its own id only. */
  method FindLane(layer: FeatureLayer, area: KeyValue, lane: KeyValue, query: seq<KeyValue>) returns (known: bool, found: Option<nat>)
    requires layer.Valid() && layer.featureTypes == [LANE] && area.key == "areaId" && lane.key == "laneId"
    requires layer.added == [Feature("Lane", [area, lane])] && layer.features == layer.added
    modifies layer`featureHashIndex, layer`featureHashIndexNeedsSorting
    ensures layer.Valid() && known
    ensures StripOptional(query, AREA_LANE) == query ==> found == if query == [area, lane] then Some(0) else None
  {
    assert FirstNamed(layer.featureTypes, "Lane", 0) && layer.featureTypes[0].compositions[0] == AREA_LANE;
    PrimaryIsFirst(layer.featureTypes, "Lane", 0);
    LaneIds(area, lane);
    known, found := layer.Find("Lane", query);
  }

  lemma LaneNames(fold: string -> string, area: KeyValue, lane: KeyValue, parts: seq<KeyValue>)
    requires area.key == "areaId" && lane.key == "laneId" && parts == [area, lane] && Apart(fold, iset{"Lane", "areaId", "laneId"})
    ensures Keeps(fold, [], NameSet(Feature("Lane", parts))) && Apart(fold, NameSet(Feature("Lane", parts)))
  {
    assert Keys(parts) == ["areaId", "laneId"] && Names(Feature("Lane", parts)) == ["Lane", "areaId", "laneId"];
  }

  /** An id in terms of the second composition is refused. */
  method RefuseLane(layer: FeatureLayer, lane: KeyValue) returns (ok: bool)
    requires layer.Valid() && layer.featureTypes == [LANE] && layer.partsMatch == SameLabels && layer.featureIdPrefix == []
    modifies layer
    ensures !ok && unchanged(layer)
  {
    assert FirstNamed(layer.featureTypes, "Lane", 0) && layer.featureTypes[0].compositions[0] == AREA_LANE;
    assert !SameLabels(AREA_LANE, 0, [lane]);
    ok := layer.NewFeature("Lane", [lane]);
  }

  /** An id in terms of the first one is accepted. */
  method AddLane(layer: FeatureLayer, area: KeyValue, lane: KeyValue) returns (ok: bool)
    requires layer.Valid() && layer.featureTypes == [LANE] && layer.partsMatch == SameLabels && layer.strings == []
    requires layer.added == [] && layer.givenPrefix == []
    requires area.key == "areaId" && lane.key == "laneId" && Apart(layer.fold, iset{"Lane", "areaId", "laneId"})
    modifies layer
    ensures layer.Valid() && ok && layer.added == [Feature("Lane", [area, lane])] && layer.features == layer.added
  {
    var parts := [area, lane];
    assert FirstNamed(layer.featureTypes, "Lane", 0) && layer.featureTypes[0].compositions[0] == AREA_LANE;
    LaneNames(layer.fold, area, lane, parts);
    assert [] + parts == parts;
    ok := layer.NewFeature("Lane", parts);
  }

  /** The feature is found under its whole id, and not under that of another lane or under the
      number alone. */
  method SecondIsForReferences(fold: string -> string, hash: (string, seq<KeyValue>) -> nat)
      returns (secondary: bool, primary: bool, found: Option<nat>, other: Option<nat>, alone: Option<nat>)
    requires Apart(fold, iset{"Lane", "areaId", "laneId"})
    ensures !secondary && primary && found == Some(0) && other == None && alone == None
  {
    var area, lane, area2 := KeyValue("areaId", Number(1)), KeyValue("laneId", Number(7)), KeyValue("areaId", Number(2));
    var layer := new FeatureLayer(fold, [], [LANE], hash, SameLabels);
    secondary := RefuseLane(layer, lane);
    primary := AddLane(layer, area, lane);
    LaneIds(area, lane);
    LaneIds(area2, lane);
    var known;
    known, found := FindLane(layer, area, lane, [area, lane]);
    known, other := FindLane(layer, area, lane, [area2, lane]);
    known, alone := FindLane(layer, area, lane, [lane]);
  }
}
