/** The memoised copy of a node graph from one feature layer into another: objects, arrays,
    attribute layers, scalars, and nodes whose value lies in their address. The names of fields
    go through the string pool of the target, which may spell them in another case. */
module Clone {
  import opened StringPools

  /** Null, booleans and small numbers are held in the address itself. */
  datatype Ref = Ptr(index: nat) | Inline(value: int)

  datatype Value = Int64(i: int) | Double(d: real) | String(s: string)

  datatype Kind = Object | AttributeLayer | AttributeLayerList

  /** Field names are ids in the layer's string pool. */
  datatype Node = Fields(kind: Kind, fields: seq<(nat, Ref)>) | Array(elems: seq<Ref>) | Scalar(value: Value)

  datatype Model = Model(nodes: seq<Node>, strings: seq<string>)

  predicate Known(m: Model, r: Ref) { r.Ptr? ==> r.index < |m.nodes| }

  /** Every node refers to nodes of the same layer. */
  predicate Closed(m: Model) {
    forall i :: 0 <= i < |m.nodes| ==>
      match m.nodes[i]
      case Fields(_, fs) => forall j :: 0 <= j < |fs| ==> Known(m, fs[j].1)
      case Array(es) => forall j :: 0 <= j < |es| ==> Known(m, es[j])
      case Scalar(_) => true
  }

  /** Fields with their names; a name id that the pool does not know is left out. */
  function Named(strings: seq<string>, fields: seq<(nat, Ref)>): seq<(string, Ref)> {
    if fields == [] then []
    else
      var (id, r) := fields[|fields| - 1];
      Named(strings, fields[..|fields| - 1]) + (if id < |strings| then [(strings[id], r)] else [])
  }

  /** Where all names are known, every field is there under its name, in its place. */
  lemma {:induction false} NamedInPlace(strings: seq<string>, fields: seq<(nat, Ref)>, i: nat)
    requires i < |fields| && forall j :: 0 <= j < |fields| ==> fields[j].0 < |strings|
    ensures |Named(strings, fields)| == |fields| && Named(strings, fields)[i] == (strings[fields[i].0], fields[i].1)
  {
    var front := fields[..|fields| - 1];
    if front != [] { NamedInPlace(strings, front, if i < |front| then i else 0); }
  }

  // ---- the copy as a homomorphism ---------------------------------------

  type Memo = map<Ref, Ref>

  predicate Maps(memo: Memo, from: seq<Ref>, to: seq<Ref>) {
    |from| == |to| && forall j :: 0 <= j < |from| ==> from[j] in memo && to[j] == memo[from[j]]
  }

  /** The same fields in the same order, under the names as `pool` spells them. */
  predicate MapsFields(fold: string -> string, pool: seq<string>, memo: Memo, from: seq<(string, Ref)>, to: seq<(string, Ref)>) {
    |from| == |to| && forall j :: 0 <= j < |from| ==>
      Has(fold, pool, from[j].0) && from[j].1 in memo && to[j] == (Spelling(fold, pool, from[j].0), memo[from[j].1])
  }

  predicate Resolvable(strings: seq<string>, fields: seq<(nat, Ref)>) { forall j :: 0 <= j < |fields| ==> fields[j].0 < |strings| }

  /** `b` is a copy of `a`: same kind and value, the same names but for case in the same order,
      children where the memo says their copies are. */
  predicate Mirrors(fold: string -> string, src: Model, dst: Model, memo: Memo, a: Node, b: Node) {
    match a
    case Fields(k, fs) =>
      && b.Fields? && b.kind == k && Resolvable(dst.strings, b.fields)
      && MapsFields(fold, dst.strings, memo, Named(src.strings, fs), Named(dst.strings, b.fields))
    case Array(es) => b.Array? && Maps(memo, es, b.elems)
    case Scalar(_) => b == a
  }

  predicate Done(fold: string -> string, src: Model, dst: Model, memo: Memo, r: Ref) {
    r in memo &&
    if r.Inline? then memo[r] == r
    else
      && r.index < |src.nodes| && memo[r].Ptr? && memo[r].index < |dst.nodes|
      && Mirrors(fold, src, dst, memo, src.nodes[r.index], dst.nodes[memo[r].index])
  }

  predicate Within(memo: Memo, memo': Memo) { forall r :: r in memo ==> r in memo' && memo'[r] == memo[r] }

  /** Names keep their meaning when a pool only grows. */
  lemma {:induction false} NamedGrows(strings: seq<string>, more: seq<string>, fields: seq<(nat, Ref)>)
    requires Resolvable(strings, fields) && strings <= more
    ensures Named(more, fields) == Named(strings, fields)
  {
    if fields != [] { NamedGrows(strings, more, fields[..|fields| - 1]); }
  }

  lemma MapsFieldsStay(fold: string -> string, pool: seq<string>, pool': seq<string>, memo: Memo, memo': Memo, from: seq<(string, Ref)>, to: seq<(string, Ref)>)
    requires MapsFields(fold, pool, memo, from, to) && pool <= pool' && Within(memo, memo')
    ensures MapsFields(fold, pool', memo', from, to)
  {
    forall j | 0 <= j < |from| ensures Has(fold, pool', from[j].0) && Spelling(fold, pool', from[j].0) == Spelling(fold, pool, from[j].0) {
      SpellingStays(fold, pool, pool', from[j].0);
    }
  }

  /** What has been copied stays a copy while more is copied. */
  lemma DoneStays(fold: string -> string, src: Model, dst: Model, dst': Model, memo: Memo, memo': Memo, r: Ref)
    requires Done(fold, src, dst, memo, r) && Within(memo, memo') && dst.strings <= dst'.strings
    requires r.Ptr? ==> memo[r].index < |dst'.nodes| && dst'.nodes[memo[r].index] == dst.nodes[memo[r].index]
    ensures Done(fold, src, dst', memo', r)
  {
    if r.Ptr? && src.nodes[r.index].Fields? {
      var from, fields := Named(src.strings, src.nodes[r.index].fields), dst.nodes[memo[r].index].fields;
      NamedGrows(dst.strings, dst'.strings, fields);
      MapsFieldsStay(fold, dst.strings, dst'.strings, memo, memo', from, Named(dst.strings, fields));
    }
  }

  /** What a complete copy is, node by node: a scalar is the same; an array has the copies of
      the elements in their order; and where the source knows all names, an object or attribute
      layer has the copies of the fields in their order, each under its name but for case. */
  lemma CopyIs(fold: string -> string, src: Model, dst: Model, memo: Memo, r: Ref)
    requires Done(fold, src, dst, memo, r)
    requires r.Ptr? && src.nodes[r.index].Fields? ==> Resolvable(src.strings, src.nodes[r.index].fields)
    ensures r.Inline? ==> memo[r] == r
    ensures r.Ptr? ==>
              var copy := dst.nodes[memo[r].index];
              match src.nodes[r.index]
              case Scalar(v) => copy == Scalar(v)
              case Array(es) => copy.Array? && |copy.elems| == |es| && forall j :: 0 <= j < |es| ==> es[j] in memo && copy.elems[j] == memo[es[j]]
              case Fields(kind, fs) =>
                && copy.Fields? && copy.kind == kind && |copy.fields| == |fs|
                && forall j :: 0 <= j < |fs| ==>
                     && copy.fields[j].0 < |dst.strings| && fold(dst.strings[copy.fields[j].0]) == fold(src.strings[fs[j].0])
                     && fs[j].1 in memo && copy.fields[j].1 == memo[fs[j].1]
  {
    if r.Ptr? && src.nodes[r.index].Fields? {
      var fs, fields := src.nodes[r.index].fields, dst.nodes[memo[r].index].fields;
      var from, to := Named(src.strings, fs), Named(dst.strings, fields);
      NamedSize(src.strings, fs);
      NamedSize(dst.strings, fields);
      forall j | 0 <= j < |fs|
        ensures fields[j].0 < |dst.strings| && fold(dst.strings[fields[j].0]) == fold(src.strings[fs[j].0]) && fs[j].1 in memo && fields[j].1 == memo[fs[j].1]
      {
        NamedInPlace(src.strings, fs, j);
        NamedInPlace(dst.strings, fields, j);
        assert to[j] == (Spelling(fold, dst.strings, from[j].0), memo[from[j].1]);
      }
    }
  }

  lemma NamedSize(strings: seq<string>, fields: seq<(nat, Ref)>)
    requires Resolvable(strings, fields)
    ensures |Named(strings, fields)| == |fields|
  {
    if fields != [] { NamedInPlace(strings, fields, 0); }
  }

  // ---- what a homomorphism preserves ------------------------------------

  /** A node unfolded to some depth, with names instead of ids and values instead of addresses. */
  datatype Tree = Cut | Small(i: int) | Leaf(v: Value) | List(items: seq<Tree>) | Record(kind: Kind, members: seq<(string, Tree)>)

  function Unfold(m: Model, r: Ref, depth: nat): Tree
    decreases depth
  {
    if r.Inline? then Small(r.value)
    else if depth == 0 || r.index >= |m.nodes| then Cut
    else
      match m.nodes[r.index]
      case Scalar(v) => Leaf(v)
      case Array(es) => List(seq(|es|, j requires 0 <= j < |es| => Unfold(m, es[j], depth - 1)))
      case Fields(k, fs) =>
        var named := Named(m.strings, fs);
        Record(k, seq(|named|, j requires 0 <= j < |named| => (named[j].0, Unfold(m, named[j].1, depth - 1))))
  }

  /** The same tree with other names. */
  function Renamed(f: string -> string, t: Tree): Tree {
    match t
    case List(items) => List(seq(|items|, j requires 0 <= j < |items| => Renamed(f, items[j])))
    case Record(k, ms) => Record(k, seq(|ms|, j requires 0 <= j < |ms| => (f(ms[j].0), Renamed(f, ms[j].1))))
    case _ => t
  }

  function Speller(fold: string -> string, pool: seq<string>): string -> string { s => Spelling(fold, pool, s) }

  /** `x` in `dst` unfolds like `y` in `src`, renamed. */
  predicate UnfoldsTo(f: string -> string, src: Model, dst: Model, y: Ref, x: Ref, depth: nat) {
    Unfold(dst, x, depth) == Renamed(f, Unfold(src, y, depth))
  }

  lemma UnfoldElems(f: string -> string, src: Model, dst: Model, y: Ref, x: Ref, es: seq<Ref>, bs: seq<Ref>, depth: nat, below: nat)
    requires y.Ptr? && y.index < |src.nodes| && src.nodes[y.index] == Array(es)
    requires x.Ptr? && x.index < |dst.nodes| && dst.nodes[x.index] == Array(bs)
    requires below == depth - 1 && |bs| == |es| && forall j :: 0 <= j < |es| ==> UnfoldsTo(f, src, dst, es[j], bs[j], below)
    ensures UnfoldsTo(f, src, dst, y, x, depth)
  {
    forall j | 0 <= j < |es| ensures Unfold(dst, x, depth).items[j] == Renamed(f, Unfold(src, y, depth)).items[j] {
      assert UnfoldsTo(f, src, dst, es[j], bs[j], below);
    }
  }

  lemma UnfoldFields(f: string -> string, src: Model, dst: Model, y: Ref, x: Ref, k: Kind, from: seq<(string, Ref)>, to: seq<(string, Ref)>, depth: nat, below: nat)
    requires y.Ptr? && y.index < |src.nodes| && src.nodes[y.index].Fields? && src.nodes[y.index].kind == k && Named(src.strings, src.nodes[y.index].fields) == from
    requires x.Ptr? && x.index < |dst.nodes| && dst.nodes[x.index].Fields? && dst.nodes[x.index].kind == k && Named(dst.strings, dst.nodes[x.index].fields) == to
    requires below == depth - 1 && |to| == |from|
    requires forall j :: 0 <= j < |from| ==> to[j].0 == f(from[j].0) && UnfoldsTo(f, src, dst, from[j].1, to[j].1, below)
    ensures UnfoldsTo(f, src, dst, y, x, depth)
  {
    forall j | 0 <= j < |from| ensures Unfold(dst, x, depth).members[j] == Renamed(f, Unfold(src, y, depth)).members[j] {
      assert UnfoldsTo(f, src, dst, from[j].1, to[j].1, below);
    }
  }

  /** To any depth, sharing and cycles included, a copy unfolds like its original, with the names
      as the pool of the copy spells them. */
  lemma {:induction false} SameUnfolding(fold: string -> string, src: Model, dst: Model, memo: Memo, r: Ref, depth: nat)
    requires (forall x :: x in memo ==> Done(fold, src, dst, memo, x)) && r in memo
    ensures UnfoldsTo(Speller(fold, dst.strings), src, dst, r, memo[r], depth)
    decreases depth
  {
    assert Done(fold, src, dst, memo, r);
    if r.Ptr? && depth > 0 {
      var f, below, b := Speller(fold, dst.strings), depth - 1, dst.nodes[memo[r].index];
      match src.nodes[r.index] {
        case Scalar(_) =>
        case Array(es) =>
          forall j | 0 <= j < |es| ensures UnfoldsTo(f, src, dst, es[j], b.elems[j], below) {
            SameUnfolding(fold, src, dst, memo, es[j], below);
          }
          UnfoldElems(f, src, dst, r, memo[r], es, b.elems, depth, below);
        case Fields(k, fs) =>
          var from, to := Named(src.strings, fs), Named(dst.strings, b.fields);
          forall j | 0 <= j < |from| ensures to[j].0 == f(from[j].0) && UnfoldsTo(f, src, dst, from[j].1, to[j].1, below) {
            SameUnfolding(fold, src, dst, memo, from[j].1, below);
          }
          UnfoldFields(f, src, dst, r, memo[r], k, from, to, depth, below);
      }
    }
  }

  // ---- names ------------------------------------------------------------

  ghost predicate Mentions(t: Tree, name: string) {
    match t
    case List(items) => exists j :: 0 <= j < |items| && Mentions(items[j], name)
    case Record(_, ms) => exists j :: 0 <= j < |ms| && (ms[j].0 == name || Mentions(ms[j].1, name))
    case _ => false
  }

  /** Renaming changes nothing if and only if it keeps every name there is. */
  lemma {:induction false} RenamedIsSame(f: string -> string, t: Tree)
    ensures Renamed(f, t) == t <==> forall n :: Mentions(t, n) ==> f(n) == n
  {
    match t {
      case List(items) =>
        forall j | 0 <= j < |items| ensures Renamed(f, items[j]) == items[j] <==> forall n :: Mentions(items[j], n) ==> f(n) == n {
          RenamedIsSame(f, items[j]);
        }
        if Renamed(f, t) == t {
          forall j | 0 <= j < |items| ensures Renamed(f, items[j]) == items[j] { assert Renamed(f, t).items[j] == items[j]; }
        }
      case Record(_, ms) =>
        forall j | 0 <= j < |ms| ensures Renamed(f, ms[j].1) == ms[j].1 <==> forall n :: Mentions(ms[j].1, n) ==> f(n) == n {
          RenamedIsSame(f, ms[j].1);
        }
        if Renamed(f, t) == t {
          forall j | 0 <= j < |ms| ensures f(ms[j].0) == ms[j].0 && Renamed(f, ms[j].1) == ms[j].1 { assert Renamed(f, t).members[j] == ms[j]; }
        }
      case _ =>
    }
  }

  /** Names that are spelled otherwise still have the same fold. */
  lemma {:induction false} RespelledFolds(fold: string -> string, pool: seq<string>, t: Tree)
    ensures Renamed(fold, Renamed(Speller(fold, pool), t)) == Renamed(fold, t)
  {
    match t {
      case List(items) =>
        forall j | 0 <= j < |items| ensures Renamed(fold, Renamed(Speller(fold, pool), items[j])) == Renamed(fold, items[j]) { RespelledFolds(fold, pool, items[j]); }
      case Record(_, ms) =>
        forall j | 0 <= j < |ms| ensures Renamed(fold, Renamed(Speller(fold, pool), ms[j].1)) == Renamed(fold, ms[j].1) { RespelledFolds(fold, pool, ms[j].1); }
      case _ =>
    }
  }

  /** A field somewhere below `r` has this name. */
  ghost predicate Reaches(m: Model, r: Ref, name: string) { exists depth: nat :: Mentions(Unfold(m, r, depth), name) }

  ghost function NamesFrom(m: Model, r: Ref): iset<string> { iset n | Reaches(m, r, n) }

  lemma ReachesElem(m: Model, r: Ref, es: seq<Ref>, j: nat, name: string)
    requires r.Ptr? && r.index < |m.nodes| && m.nodes[r.index] == Array(es) && j < |es| && Reaches(m, es[j], name)
    ensures Reaches(m, r, name)
  {
    var depth: nat :| Mentions(Unfold(m, es[j], depth), name);
    assert Unfold(m, r, depth + 1).items[j] == Unfold(m, es[j], depth);
    assert Mentions(Unfold(m, r, depth + 1), name);
  }

  lemma {:induction false} NamedHas(strings: seq<string>, fields: seq<(nat, Ref)>, i: nat) returns (j: nat)
    requires i < |fields| && fields[i].0 < |strings|
    ensures j < |Named(strings, fields)| && Named(strings, fields)[j] == (strings[fields[i].0], fields[i].1)
  {
    if i == |fields| - 1 { return |Named(strings, fields)| - 1; }
    j := NamedHas(strings, fields[..|fields| - 1], i);
  }

  lemma ReachesField(m: Model, r: Ref, k: Kind, fs: seq<(nat, Ref)>, i: nat, name: string)
    requires r.Ptr? && r.index < |m.nodes| && m.nodes[r.index] == Fields(k, fs) && i < |fs| && fs[i].0 < |m.strings|
    requires name == m.strings[fs[i].0] || Reaches(m, fs[i].1, name)
    ensures Reaches(m, r, name)
  {
    var j := NamedHas(m.strings, fs, i);
    var depth: nat :| name == m.strings[fs[i].0] || Mentions(Unfold(m, fs[i].1, depth), name);
    assert Unfold(m, r, depth + 1).members[j] == (m.strings[fs[i].0], Unfold(m, fs[i].1, depth));
    assert Mentions(Unfold(m, r, depth + 1), name);
  }

  lemma NamedNext(strings: seq<string>, fields: seq<(nat, Ref)>, i: nat, next: nat)
    requires next == i + 1 <= |fields|
    ensures Named(strings, fields[..next]) == Named(strings, fields[..i]) + (if fields[i].0 < |strings| then [(strings[fields[i].0], fields[i].1)] else [])
  {
    assert fields[..next][..i] == fields[..i];
  }

  lemma MentionedElem(m: Model, r: Ref, es: seq<Ref>, depth: nat, name: string) returns (j: nat)
    requires r.Ptr? && r.index < |m.nodes| && m.nodes[r.index] == Array(es) && Mentions(Unfold(m, r, depth), name)
    ensures depth > 0 && j < |es| && Mentions(Unfold(m, es[j], depth - 1), name)
  {
    j :| 0 <= j < |es| && Mentions(Unfold(m, r, depth).items[j], name);
  }

  lemma MentionedField(m: Model, r: Ref, from: seq<(string, Ref)>, depth: nat, name: string) returns (j: nat)
    requires r.Ptr? && r.index < |m.nodes| && m.nodes[r.index].Fields? && Named(m.strings, m.nodes[r.index].fields) == from && Mentions(Unfold(m, r, depth), name)
    ensures depth > 0 && j < |from| && (from[j].0 == name || Mentions(Unfold(m, from[j].1, depth - 1), name))
  {
    var members := Unfold(m, r, depth).members;
    j :| 0 <= j < |members| && (members[j].0 == name || Mentions(members[j].1, name));
  }

  /** A name below an original is that of a field that has been copied, or below a child. */
  lemma MentionedBelow(fold: string -> string, src: Model, dst: Model, memo: Memo, r: Ref, depth: nat, name: string) returns (child: Ref, below: nat)
    requires Done(fold, src, dst, memo, r) && Mentions(Unfold(src, r, depth), name)
    ensures Has(fold, dst.strings, name) || (child in memo && below < depth && Mentions(Unfold(src, child, below), name))
  {
    below := depth - 1;
    if src.nodes[r.index].Array? {
      var j := MentionedElem(src, r, src.nodes[r.index].elems, depth, name);
      child := src.nodes[r.index].elems[j];
    } else {
      var from := Named(src.strings, src.nodes[r.index].fields);
      var j := MentionedField(src, r, from, depth, name);
      child := from[j].1;
    }
  }

  /** Every name below an original is in the pool of its copy, in some spelling. */
  lemma {:induction false} ReachedHas(fold: string -> string, src: Model, dst: Model, memo: Memo, r: Ref, depth: nat, name: string)
    requires (forall x :: x in memo ==> Done(fold, src, dst, memo, x)) && r in memo && Mentions(Unfold(src, r, depth), name)
    ensures Has(fold, dst.strings, name)
    decreases depth
  {
    var child, below := MentionedBelow(fold, src, dst, memo, r, depth, name);
    if !Has(fold, dst.strings, name) { ReachedHas(fold, src, dst, memo, child, below, name); }
  }

  // ---- how much is left to copy -----------------------------------------

  /** Source nodes below `n` that the memo does not have. */
  function Todo(memo: Memo, n: nat): nat {
    if n == 0 then 0 else Todo(memo, n - 1) + (if Ptr(n - 1) in memo then 0 else 1)
  }

  lemma {:induction false} TodoShrinks(memo: Memo, memo': Memo, n: nat)
    requires Within(memo, memo')
    ensures Todo(memo', n) <= Todo(memo, n)
  {
    if n != 0 { TodoShrinks(memo, memo', n - 1); }
  }

  lemma {:induction false} TodoLess(memo: Memo, r: Ref, to: Ref, n: nat)
    requires r.Ptr? && r !in memo
    ensures Todo(memo[r := to], n) == Todo(memo, n) - (if r.index < n then 1 else 0)
    ensures r.index < n ==> Todo(memo, n) > 0
  {
    if n != 0 { TodoLess(memo, r, to, n - 1); }
  }

  lemma {:induction false} TodoInline(memo: Memo, r: Ref, n: nat)
    requires r.Inline?
    ensures Todo(memo[r := r], n) == Todo(memo, n)
  {
    if n != 0 { TodoInline(memo, r, n - 1); }
  }

  // ---- what one call adds -----------------------------------------------

  ghost predicate IsNew(memo: Memo, memo': Memo, r: Ref) { r in memo' && r !in memo }

  /** From `before` to `after`, with the memo growing from `memo` to `memo'`: nothing that was
      there has changed, every new memo entry leads to a complete copy, at an address of its
      own behind the old nodes, and there are no other new nodes. */
  ghost predicate Copied(fold: string -> string, src: Model, before: Model, after: Model, memo: Memo, memo': Memo) {
    && before.nodes <= after.nodes && before.strings <= after.strings && Within(memo, memo')
    && (forall x :: IsNew(memo, memo', x) ==> Done(fold, src, after, memo', x))
    && (forall x :: IsNew(memo, memo', x) && x.Ptr? ==> memo'[x].Ptr? && memo'[x].index >= |before.nodes|)
    && (forall x, y :: IsNew(memo, memo', x) && IsNew(memo, memo', y) && x.Ptr? && y.Ptr? && x != y ==> memo'[x] != memo'[y])
    && |after.nodes| - |before.nodes| == Todo(memo, |src.nodes|) - Todo(memo', |src.nodes|)
  }

  lemma CopiedTwice(fold: string -> string, src: Model, a: Model, b: Model, c: Model, m0: Memo, m1: Memo, m2: Memo)
    requires Copied(fold, src, a, b, m0, m1) && Copied(fold, src, b, c, m1, m2)
    ensures Copied(fold, src, a, c, m0, m2)
  {
    forall x | IsNew(m0, m2, x) ensures Done(fold, src, c, m2, x) && (x.Ptr? ==> m2[x].index >= |a.nodes|) {
      if x in m1 {
        assert IsNew(m0, m1, x);
        DoneStays(fold, src, b, c, m1, m2, x);
      } else {
        assert IsNew(m1, m2, x);
      }
    }
    forall x, y | IsNew(m0, m2, x) && IsNew(m0, m2, y) && x.Ptr? && y.Ptr? && x != y ensures m2[x] != m2[y] {
      assert if x in m1 then IsNew(m0, m1, x) && Done(fold, src, b, m1, x) else IsNew(m1, m2, x);
      assert if y in m1 then IsNew(m0, m1, y) && Done(fold, src, b, m1, y) else IsNew(m1, m2, y);
    }
  }

  /** The same layer, with another node at `at`. */
  function Hole(m: Model, at: nat, n: Node): Model
    requires at < |m.nodes|
  {
    Model(m.nodes[at := n], m.strings)
  }

  /** A copy does not depend on an older node that is still being filled. */
  lemma CopiedAround(fold: string -> string, src: Model, before: Model, after: Model, memo: Memo, memo': Memo, at: nat, n: Node)
    requires Copied(fold, src, before, after, memo, memo') && at < |before.nodes|
    ensures Copied(fold, src, Hole(before, at, n), Hole(after, at, n), memo, memo')
  {
    var after' := Hole(after, at, n);
    forall x | IsNew(memo, memo', x) ensures Done(fold, src, after', memo', x) {
      DoneStays(fold, src, after, after', memo', memo', x);
    }
  }

  /** New strings disturb no copy. */
  lemma HoleGrows(fold: string -> string, src: Model, before: Model, after: Model, memo: Memo, memo': Memo, strings: seq<string>)
    requires Copied(fold, src, before, after, memo, memo') && after.strings <= strings
    ensures Copied(fold, src, before, Model(after.nodes, strings), memo, memo')
  {
    forall x | IsNew(memo, memo', x) ensures Done(fold, src, Model(after.nodes, strings), memo', x) {
      DoneStays(fold, src, after, Model(after.nodes, strings), memo', memo', x);
    }
  }

  /** A node without children. */
  lemma LeafCopied(fold: string -> string, src: Model, before: Model, memo: Memo, r: Ref)
    requires r.Ptr? && r.index < |src.nodes| && src.nodes[r.index].Scalar? && r !in memo
    ensures Copied(fold, src, before, Model(before.nodes + [src.nodes[r.index]], before.strings), memo, memo[r := Ptr(|before.nodes|)])
  {
    TodoLess(memo, r, Ptr(|before.nodes|), |src.nodes|);
  }

  lemma InlineCopied(fold: string -> string, src: Model, before: Model, memo: Memo, r: Ref)
    requires r.Inline? && r !in memo
    ensures Copied(fold, src, before, before, memo, memo[r := r])
  {
    TodoInline(memo, r, |src.nodes|);
  }

  /** A node whose children have been copied into it. */
  lemma FilledCopied(fold: string -> string, src: Model, before: Model, after: Model, empty: Node, memo: Memo, memo': Memo, r: Ref)
    requires r.Ptr? && r.index < |src.nodes| && r !in memo
    requires var at := |before.nodes|;
             && at < |after.nodes|
             && Copied(fold, src, Model(before.nodes + [empty], before.strings), Hole(after, at, empty), memo[r := Ptr(at)], memo')
             && Mirrors(fold, src, after, memo', src.nodes[r.index], after.nodes[at])
    ensures Copied(fold, src, before, after, memo, memo')
  {
    var at := |before.nodes|;
    var memo1, holed := memo[r := Ptr(at)], Hole(after, at, empty);
    TodoLess(memo, r, Ptr(at), |src.nodes|);
    assert memo'[r] == memo1[r] == Ptr(at);
    assert before.nodes <= after.nodes by {
      assert before.nodes + [empty] <= holed.nodes;
      forall i | 0 <= i < at ensures after.nodes[i] == before.nodes[i] { assert holed.nodes[i] == (before.nodes + [empty])[i]; }
    }
    forall x | IsNew(memo, memo', x) && x != r ensures IsNew(memo1, memo', x) && Done(fold, src, after, memo', x) {
      assert IsNew(memo1, memo', x);
      DoneStays(fold, src, holed, after, memo', memo', x);
    }
  }

  /** The strings behind those of `was` are names below `r`. */
  ghost predicate NewNames(src: Model, was: seq<string>, now: seq<string>, r: Ref) {
    was <= now && forall i :: |was| <= i < |now| ==> Reaches(src, r, now[i])
  }

  lemma NewNamesTwice(src: Model, a: seq<string>, b: seq<string>, c: seq<string>, r: Ref)
    requires NewNames(src, a, b, r) && NewNames(src, b, c, r)
    ensures NewNames(src, a, c, r)
  {
    forall i | |a| <= i < |c| ensures Reaches(src, r, c[i]) { if i < |b| { assert c[i] == b[i]; } }
  }

  lemma NewNamesOfElem(src: Model, was: seq<string>, now: seq<string>, r: Ref, es: seq<Ref>, j: nat)
    requires r.Ptr? && r.index < |src.nodes| && src.nodes[r.index] == Array(es) && j < |es| && NewNames(src, was, now, es[j])
    ensures NewNames(src, was, now, r)
  {
    forall i | |was| <= i < |now| ensures Reaches(src, r, now[i]) { ReachesElem(src, r, es, j, now[i]); }
  }

  lemma NewNamesOfField(fold: string -> string, src: Model, was: seq<string>, now: seq<string>, r: Ref, k: Kind, fs: seq<(nat, Ref)>, j: nat, name: string)
    requires r.Ptr? && r.index < |src.nodes| && src.nodes[r.index] == Fields(k, fs) && j < |fs| && fs[j].0 < |src.strings|
    requires NewNames(src, was, now, fs[j].1) && name == src.strings[fs[j].0]
    ensures NewNames(src, was, Emplaced(fold, now, name), r)
  {
    forall i | |was| <= i < |Emplaced(fold, now, name)| ensures Reaches(src, r, Emplaced(fold, now, name)[i]) {
      ReachesField(src, r, k, fs, j, Emplaced(fold, now, name)[i]);
    }
  }

  // ---- exactly what is below is copied ----------------------------------

  /** `x` is an element of the array `r`, or the value of one of its fields with a known name. */
  predicate IsChild(m: Model, r: Ref, x: Ref) {
    r.Ptr? && r.index < |m.nodes| &&
    match m.nodes[r.index]
    case Fields(_, fs) => exists j :: 0 <= j < |fs| && fs[j].0 < |m.strings| && fs[j].1 == x
    case Array(es) => x in es
    case Scalar(_) => false
  }

  ghost predicate BelowIn(m: Model, r: Ref, x: Ref, depth: nat)
    decreases depth
  {
    x == r || (depth > 0 && exists c :: IsChild(m, r, c) && BelowIn(m, c, x, depth - 1))
  }

  /** `x` is `r`, or can be got to from it. */
  ghost predicate Below(m: Model, r: Ref, x: Ref) { exists depth: nat :: BelowIn(m, r, x, depth) }

  lemma BelowSelf(m: Model, r: Ref)
    ensures Below(m, r, r)
  {
    assert BelowIn(m, r, r, 0);
  }

  lemma BelowChild(m: Model, r: Ref, c: Ref, x: Ref)
    requires IsChild(m, r, c) && Below(m, c, x)
    ensures Below(m, r, x)
  {
    var depth: nat :| BelowIn(m, c, x, depth);
    assert BelowIn(m, r, x, depth + 1);
  }

  /** New strings are names below `r`, and new memo entries are for nodes below `r`. */
  ghost predicate OnlyBelow(src: Model, was: seq<string>, now: seq<string>, memo: Memo, memo': Memo, r: Ref) {
    NewNames(src, was, now, r) && forall x :: IsNew(memo, memo', x) ==> Below(src, r, x)
  }

  lemma OnlyBelowTwice(src: Model, a: seq<string>, b: seq<string>, c: seq<string>, m0: Memo, m1: Memo, m2: Memo, r: Ref)
    requires OnlyBelow(src, a, b, m0, m1, r) && OnlyBelow(src, b, c, m1, m2, r)
    ensures OnlyBelow(src, a, c, m0, m2, r)
  {
    NewNamesTwice(src, a, b, c, r);
    forall x | IsNew(m0, m2, x) ensures Below(src, r, x) { assert if x in m1 then IsNew(m0, m1, x) else IsNew(m1, m2, x); }
  }

  lemma OnlyBelowSelf(src: Model, was: seq<string>, now: seq<string>, memo: Memo, to: Ref, memo': Memo, r: Ref)
    requires OnlyBelow(src, was, now, memo[r := to], memo', r)
    ensures OnlyBelow(src, was, now, memo, memo', r)
  {
    BelowSelf(src, r);
    forall x | IsNew(memo, memo', x) && x != r ensures Below(src, r, x) { assert IsNew(memo[r := to], memo', x); }
  }

  lemma OnlyBelowNothing(src: Model, was: seq<string>, memo: Memo, r: Ref)
    ensures OnlyBelow(src, was, was, memo, memo, r)
  {}

  lemma OnlyBelowOfElem(src: Model, was: seq<string>, now: seq<string>, memo: Memo, memo': Memo, r: Ref, es: seq<Ref>, j: nat)
    requires r.Ptr? && r.index < |src.nodes| && src.nodes[r.index] == Array(es) && j < |es| && OnlyBelow(src, was, now, memo, memo', es[j])
    ensures OnlyBelow(src, was, now, memo, memo', r)
  {
    NewNamesOfElem(src, was, now, r, es, j);
    forall x | IsNew(memo, memo', x) ensures Below(src, r, x) { BelowChild(src, r, es[j], x); }
  }

  lemma OnlyBelowOfField(fold: string -> string, src: Model, was: seq<string>, now: seq<string>, memo: Memo, memo': Memo, r: Ref, k: Kind, fs: seq<(nat, Ref)>, j: nat, name: string)
    requires r.Ptr? && r.index < |src.nodes| && src.nodes[r.index] == Fields(k, fs) && j < |fs| && fs[j].0 < |src.strings|
    requires OnlyBelow(src, was, now, memo, memo', fs[j].1) && name == src.strings[fs[j].0]
    ensures OnlyBelow(src, was, Emplaced(fold, now, name), memo, memo', r)
  {
    NewNamesOfField(fold, src, was, now, r, k, fs, j, name);
    forall x | IsNew(memo, memo', x) ensures Below(src, r, x) { BelowChild(src, r, fs[j].1, x); }
  }

  lemma ChildIsCopied(fold: string -> string, src: Model, dst: Model, memo: Memo, r: Ref, c: Ref)
    requires Done(fold, src, dst, memo, r) && IsChild(src, r, c)
    ensures c in memo
  {
    if src.nodes[r.index].Fields? {
      var fs := src.nodes[r.index].fields;
      var j :| 0 <= j < |fs| && fs[j].0 < |src.strings| && fs[j].1 == c;
      var i := NamedHas(src.strings, fs, j);
    }
  }

  lemma {:induction false} AllBelowCopied(fold: string -> string, src: Model, dst: Model, memo: Memo, r: Ref, x: Ref, depth: nat)
    requires (forall y :: y in memo ==> Done(fold, src, dst, memo, y)) && r in memo && BelowIn(src, r, x, depth)
    ensures x in memo
    decreases depth
  {
    if x != r {
      var c :| IsChild(src, r, c) && BelowIn(src, c, x, depth - 1);
      ChildIsCopied(fold, src, dst, memo, r, c);
      AllBelowCopied(fold, src, dst, memo, c, x, depth - 1);
    }
  }

  /** A call copies exactly the nodes that can be got to from the one it is given and that the
      memo does not have yet: none is left out and none is copied in vain. */
  lemma CopiesExactly(fold: string -> string, src: Model, before: Model, after: Model, memo: Memo, memo': Memo, r: Ref, x: Ref)
    requires (forall y :: y in memo ==> Done(fold, src, before, memo, y)) && Copied(fold, src, before, after, memo, memo') && r in memo'
    requires OnlyBelow(src, before.strings, after.strings, memo, memo', r)
    ensures IsNew(memo, memo', x) <==> x !in memo && Below(src, r, x)
  {
    if x !in memo && Below(src, r, x) {
      CopyMeansTheSame(fold, src, before, after, memo, memo', r, 0);
      var depth: nat :| BelowIn(src, r, x, depth);
      AllBelowCopied(fold, src, after, memo', r, x, depth);
    }
  }

  /** A memo that only leads to complete copies still does after a call, so what the call
      returns means the same as its original, up to the case of names. */
  lemma CopyMeansTheSame(fold: string -> string, src: Model, before: Model, after: Model, memo: Memo, memo': Memo, r: Ref, depth: nat)
    requires (forall x :: x in memo ==> Done(fold, src, before, memo, x)) && Copied(fold, src, before, after, memo, memo') && r in memo'
    ensures forall x :: x in memo' ==> Done(fold, src, after, memo', x)
    ensures Unfold(after, memo'[r], depth) == Renamed(Speller(fold, after.strings), Unfold(src, r, depth))
    ensures Renamed(fold, Unfold(after, memo'[r], depth)) == Renamed(fold, Unfold(src, r, depth))
  {
    forall x | x in memo' ensures Done(fold, src, after, memo', x) {
      if x in memo { DoneStays(fold, src, before, after, memo, memo', x); } else { assert IsNew(memo, memo', x); }
    }
    SameUnfolding(fold, src, after, memo', r, depth);
    RespelledFolds(fold, after.strings, Unfold(src, r, depth));
  }

  /** To every depth the two unfold to the very same tree. */
  ghost predicate UnfoldSame(a: Model, x: Ref, b: Model, y: Ref) { forall depth: nat :: Unfold(a, x, depth) == Unfold(b, y, depth) }

  lemma SameIffKept(fold: string -> string, src: Model, dst: Model, memo: Memo, r: Ref)
    requires (forall x :: x in memo ==> Done(fold, src, dst, memo, x)) && r in memo
    ensures UnfoldSame(dst, memo[r], src, r) <==> Keeps(fold, dst.strings, NamesFrom(src, r))
  {
    forall depth: nat ensures Unfold(dst, memo[r], depth) == Unfold(src, r, depth) <==> forall n :: Mentions(Unfold(src, r, depth), n) ==> Spelling(fold, dst.strings, n) == n {
      SameUnfolding(fold, src, dst, memo, r, depth);
      RenamedIsSame(Speller(fold, dst.strings), Unfold(src, r, depth));
    }
    if UnfoldSame(dst, memo[r], src, r) {
      forall n | n in NamesFrom(src, r) ensures Spelling(fold, dst.strings, n) == n {
        var depth: nat :| Mentions(Unfold(src, r, depth), n);
        assert Unfold(dst, memo[r], depth) == Unfold(src, r, depth);
      }
    }
    if Keeps(fold, dst.strings, NamesFrom(src, r)) {
      forall depth: nat ensures Unfold(dst, memo[r], depth) == Unfold(src, r, depth) {
        forall n | Mentions(Unfold(src, r, depth), n) ensures Spelling(fold, dst.strings, n) == n { assert n in NamesFrom(src, r); }
      }
    }
  }

  /** The copy unfolds to the very same tree as its original if and only if the pool copied into
      spelled no name below the original differently before, and no two of those names are the
      same but for case. */
  lemma ExactNames(fold: string -> string, src: Model, before: Model, after: Model, memo: Memo, memo': Memo, r: Ref)
    requires (forall x :: x in memo ==> Done(fold, src, before, memo, x)) && Copied(fold, src, before, after, memo, memo') && r in memo'
    requires NewNames(src, before.strings, after.strings, r)
    ensures UnfoldSame(after, memo'[r], src, r) <==> Keeps(fold, before.strings, NamesFrom(src, r)) && Apart(fold, NamesFrom(src, r))
  {
    CopyMeansTheSame(fold, src, before, after, memo, memo', r, 0);
    SameIffKept(fold, src, after, memo', r);
    forall n | n in NamesFrom(src, r) ensures Has(fold, after.strings, n) {
      var depth: nat :| Mentions(Unfold(src, r, depth), n);
      ReachedHas(fold, src, after, memo', r, depth, n);
    }
    KeepsIff(fold, before.strings, after.strings, NamesFrom(src, r));
  }

  /** An object with the field "Speed", copied into a layer whose pool has "speed". */
  lemma SpeedIsRespelled(fold: string -> string, after: Model, memo': Memo, value: Ref)
    requires fold("Speed") == fold("speed") && value.Inline?
    requires var src := Model([Fields(Object, [(0, value)])], ["Speed"]);
             Copied(fold, src, Model([], ["speed"]), after, map[], memo') && Ptr(0) in memo'
    ensures Unfold(after, memo'[Ptr(0)], 1) == Record(Object, [("speed", Small(value.value))])
    ensures Unfold(Model([Fields(Object, [(0, value)])], ["Speed"]), Ptr(0), 1) == Record(Object, [("Speed", Small(value.value))])
  {
    var src := Model([Fields(Object, [(0, value)])], ["Speed"]);
    CopyMeansTheSame(fold, src, Model([], ["speed"]), after, map[], memo', Ptr(0), 1);
    assert fold(["speed"][0]) == fold("Speed") && [(0 as nat, value)][..0] == [];
    assert Named(src.strings, [(0, value)]) == [("Speed", value)];
    SpellingStays(fold, ["speed"], after.strings, "Speed");
  }

  // ---- the layer that is copied into ------------------------------------

  class TileFeatureLayer {
    /** Strings that differ in case only have the same fold. */
    const fold: string -> string
    var nodes: seq<Node>
    var strings: seq<string>

    ghost function Now(): Model
      reads this
    {
      Model(nodes, strings)
    }

    constructor (fold: string -> string, nodes: seq<Node>, strings: seq<string>)
      ensures this.fold == fold && Now() == Model(nodes, strings)
    {
      this.fold, this.nodes, this.strings := fold, nodes, strings;
    }

    /** A field under a name that goes to the pool. */
    method AddField(at: nat, name: string, r: Ref)
      requires at < |nodes| && nodes[at].Fields?
      modifies this
      ensures strings == Emplaced(fold, old(strings), name) && Has(fold, strings, name) && |nodes| == |old(nodes)|
      ensures exists id: nat :: id < |strings| && strings[id] == Spelling(fold, strings, name)
                && nodes == old(nodes)[at := Fields(old(nodes)[at].kind, old(nodes)[at].fields + [(id, r)])]
    {
      var pool, id := Emplace(fold, strings, name);
      strings := pool;
      nodes := nodes[at := Fields(nodes[at].kind, nodes[at].fields + [(id, r)])];
    }

    method AddElem(at: nat, r: Ref)
      requires at < |nodes| && nodes[at].Array?
      modifies this`nodes
      ensures nodes == old(nodes)[at := Array(old(nodes)[at].elems + [r])]
    {
      nodes := nodes[at := Array(nodes[at].elems + [r])];
    }

    /** The copy of `r`, from the memo if it is there already. An object or array is entered
        into the memo before its children are copied. */
    method Clone(memo: Memo, src: Model, r: Ref) returns (memo': Memo, result: Ref)
      requires Closed(src) && Known(src, r)
      modifies this
      ensures Copied(fold, src, old(Now()), Now(), memo, memo') && OnlyBelow(src, old(strings), strings, memo, memo', r)
      ensures r in memo' && result == memo'[r]
      decreases Todo(memo, |src.nodes|), 0
    {
      if r in memo {
        OnlyBelowNothing(src, strings, memo, r);
        return memo, memo[r];
      }
      ghost var before := Now();
      if r.Inline? {
        memo' := memo[r := r];
        InlineCopied(fold, src, before, memo, r);
        OnlyBelowNothing(src, strings, memo', r);
        OnlyBelowSelf(src, strings, strings, memo, r, memo', r);
        return memo', r;
      }
      var at := |nodes|;
      memo' := memo[r := Ptr(at)];
      TodoLess(memo, r, Ptr(at), |src.nodes|);
      match src.nodes[r.index] {
        case Scalar(v) =>
          nodes := nodes + [Scalar(v)];
          LeafCopied(fold, src, before, memo, r);
          OnlyBelowNothing(src, strings, memo', r);
        case Array(es) =>
          nodes := nodes + [Array([])];
          memo' := CloneElems(memo', src, es, at, r);
          FilledCopied(fold, src, before, Now(), Array([]), memo, memo', r);
        case Fields(k, fs) =>
          nodes := nodes + [Fields(k, [])];
          memo' := CloneFields(memo', src, k, fs, at, r);
          FilledCopied(fold, src, before, Now(), Fields(k, []), memo, memo', r);
      }
      OnlyBelowSelf(src, before.strings, strings, memo, Ptr(at), memo', r);
      return memo', Ptr(at);
    }

    /** The elements of the array `r`. */
    method CloneElems(memo: Memo, src: Model, es: seq<Ref>, at: nat, ghost r: Ref) returns (memo': Memo)
      requires Closed(src) && (forall j :: 0 <= j < |es| ==> Known(src, es[j]))
      requires r.Ptr? && r.index < |src.nodes| && src.nodes[r.index] == Array(es)
      requires at < |nodes| && nodes[at] == Array([])
      modifies this
      ensures at < |nodes| && Copied(fold, src, old(Now()), Hole(Now(), at, Array([])), memo, memo')
      ensures Mirrors(fold, src, Now(), memo', Array(es), nodes[at]) && OnlyBelow(src, old(strings), strings, memo, memo', r)
      decreases Todo(memo, |src.nodes|), 2
    {
      ghost var before := Now();
      memo' := memo;
      OnlyBelowNothing(src, strings, memo, r);
      assert nodes[at := Array([])] == nodes;
      for i := 0 to |es|
        invariant at < |nodes| && nodes[at].Array? && Maps(memo', es[..i], nodes[at].elems)
        invariant Copied(fold, src, before, Hole(Now(), at, Array([])), memo, memo') && OnlyBelow(src, before.strings, strings, memo, memo', r)
      {
        TodoShrinks(memo, memo', |src.nodes|);
        memo' := CloneElem(memo', src, es, i, i + 1, at, r, before, memo);
      }
      assert es[..|es|] == es;
    }

    method CloneElem(memo: Memo, src: Model, es: seq<Ref>, i: nat, ghost next: nat, at: nat, ghost r: Ref, ghost before: Model, ghost memo0: Memo) returns (memo': Memo)
      requires next == i + 1 <= |es| && Closed(src) && Known(src, es[i])
      requires r.Ptr? && r.index < |src.nodes| && src.nodes[r.index] == Array(es)
      requires at < |nodes| && nodes[at].Array? && Maps(memo, es[..i], nodes[at].elems) && at < |before.nodes|
      requires Copied(fold, src, before, Hole(Now(), at, Array([])), memo0, memo) && OnlyBelow(src, before.strings, strings, memo0, memo, r)
      modifies this
      ensures at < |nodes| && nodes[at].Array? && Maps(memo', es[..next], nodes[at].elems)
      ensures Copied(fold, src, before, Hole(Now(), at, Array([])), memo0, memo') && OnlyBelow(src, before.strings, strings, memo0, memo', r)
      decreases Todo(memo, |src.nodes|), 1
    {
      ghost var was := Now();
      var child;
      memo', child := Clone(memo, src, es[i]);
      CopiedAround(fold, src, was, Now(), memo, memo', at, Array([]));
      CopiedTwice(fold, src, before, Hole(was, at, Array([])), Hole(Now(), at, Array([])), memo0, memo, memo');
      OnlyBelowOfElem(src, was.strings, strings, memo, memo', r, es, i);
      OnlyBelowTwice(src, before.strings, was.strings, strings, memo0, memo, memo', r);
      ghost var now := Now();
      AddElem(at, child);
      assert Hole(Now(), at, Array([])).nodes == Hole(now, at, Array([])).nodes;
    }

    /** The fields of the object or attribute layer `r`. */
    method CloneFields(memo: Memo, src: Model, k: Kind, fs: seq<(nat, Ref)>, at: nat, ghost r: Ref) returns (memo': Memo)
      requires Closed(src) && (forall j :: 0 <= j < |fs| ==> Known(src, fs[j].1))
      requires r.Ptr? && r.index < |src.nodes| && src.nodes[r.index] == Fields(k, fs)
      requires at < |nodes| && nodes[at] == Fields(k, [])
      modifies this
      ensures at < |nodes| && Copied(fold, src, old(Now()), Hole(Now(), at, Fields(k, [])), memo, memo')
      ensures Mirrors(fold, src, Now(), memo', Fields(k, fs), nodes[at]) && OnlyBelow(src, old(strings), strings, memo, memo', r)
      decreases Todo(memo, |src.nodes|), 2
    {
      ghost var before := Now();
      memo' := memo;
      OnlyBelowNothing(src, strings, memo, r);
      assert nodes[at := Fields(k, [])] == nodes;
      for i := 0 to |fs|
        invariant at < |nodes| && Mirrors(fold, src, Now(), memo', Fields(k, fs[..i]), nodes[at])
        invariant Copied(fold, src, before, Hole(Now(), at, Fields(k, [])), memo, memo') && OnlyBelow(src, before.strings, strings, memo, memo', r)
      {
        TodoShrinks(memo, memo', |src.nodes|);
        memo' := CloneField(memo', src, k, fs, i, i + 1, at, r, before, memo);
      }
      assert fs[..|fs|] == fs;
    }

    /** One field, unless the source does not know its name. */
    method CloneField(memo: Memo, src: Model, ghost k: Kind, fs: seq<(nat, Ref)>, i: nat, ghost next: nat, at: nat, ghost r: Ref,
                      ghost before: Model, ghost memo0: Memo) returns (memo': Memo)
      requires next == i + 1 <= |fs| && Closed(src) && Known(src, fs[i].1)
      requires r.Ptr? && r.index < |src.nodes| && src.nodes[r.index] == Fields(k, fs)
      requires at < |nodes| && Mirrors(fold, src, Now(), memo, Fields(k, fs[..i]), nodes[at]) && at < |before.nodes|
      requires Copied(fold, src, before, Hole(Now(), at, Fields(k, [])), memo0, memo) && OnlyBelow(src, before.strings, strings, memo0, memo, r)
      modifies this
      ensures at < |nodes| && Mirrors(fold, src, Now(), memo', Fields(k, fs[..next]), nodes[at])
      ensures Copied(fold, src, before, Hole(Now(), at, Fields(k, [])), memo0, memo') && OnlyBelow(src, before.strings, strings, memo0, memo', r)
      decreases Todo(memo, |src.nodes|), 1
    {
      ghost var was := Now();
      var (key, value) := fs[i];
      NamedNext(src.strings, fs, i, next);
      if key >= |src.strings| { return memo; }
      var child;
      memo', child := Clone(memo, src, value);
      CopiedAround(fold, src, was, Now(), memo, memo', at, Fields(k, []));
      CopiedTwice(fold, src, before, Hole(was, at, Fields(k, [])), Hole(Now(), at, Fields(k, [])), memo0, memo, memo');
      ghost var now := Now();
      AppendField(memo, memo', src, k, fs[..i], src.strings[key], value, child, at, was.strings);
      HoleGrows(fold, src, before, Hole(now, at, Fields(k, [])), memo0, memo', strings);
      OnlyBelowOfField(fold, src, was.strings, now.strings, memo, memo', r, k, fs, i, src.strings[key]);
      OnlyBelowTwice(src, before.strings, was.strings, strings, memo0, memo, memo', r);
    }

    method AppendField(ghost memo: Memo, ghost memo': Memo, ghost src: Model, ghost k: Kind, ghost done: seq<(nat, Ref)>,
                       name: string, ghost value: Ref, child: Ref, at: nat, ghost known: seq<string>)
      requires at < |nodes| && nodes[at].Fields? && nodes[at].kind == k && known <= strings && Resolvable(known, nodes[at].fields)
      requires MapsFields(fold, known, memo, Named(src.strings, done), Named(known, nodes[at].fields))
      requires Within(memo, memo') && value in memo' && child == memo'[value]
      modifies this
      ensures strings == Emplaced(fold, old(strings), name) && |nodes| == |old(nodes)| && at < |nodes|
      ensures nodes[at := Fields(k, [])] == old(nodes)[at := Fields(k, [])]
      ensures nodes[at].Fields? && nodes[at].kind == k && Resolvable(strings, nodes[at].fields)
      ensures MapsFields(fold, strings, memo', Named(src.strings, done) + [(name, value)], Named(strings, nodes[at].fields))
    {
      ghost var fields := nodes[at].fields;
      AddField(at, name, child);
      NamedGrows(known, strings, fields);
      MapsFieldsStay(fold, known, strings, memo, memo', Named(src.strings, done), Named(known, fields));
      assert nodes[at].fields[..|fields|] == fields;
    }
  }
}
