/** One element after another, each optionally behind a gap that aligns it to a byte. */
module Layouts {
  import opened Bits
  import opened Wire

  function Gap(aligned: bool, pos: nat): nat { if aligned then PadLength(8, pos) else 0 }

  /** Element codes from `pos` on, each behind its gap. */
  function Layout(aligned: bool, codes: seq<seq<bool>>, pos: nat): seq<bool> {
    if codes == [] then []
    else
      var front, n := Layout(aligned, codes[..|codes| - 1], pos), |codes| - 1;
      front + ToBits(Gap(aligned, pos + |front|), 0) + codes[n]
  }

  /** Where element `i` starts. */
  function ElemPos(aligned: bool, codes: seq<seq<bool>>, pos: nat, i: nat): nat
    requires i < |codes|
  {
    var end := pos + |Layout(aligned, codes[..i], pos)|;
    end + Gap(aligned, end)
  }

  /** The first `i` elements and the gap before the next one. */
  function Before(aligned: bool, codes: seq<seq<bool>>, pos: nat, i: nat): seq<bool>
    requires i < |codes|
  {
    var front := Layout(aligned, codes[..i], pos);
    front + ToBits(Gap(aligned, pos + |front|), 0)
  }

  lemma LayoutNext(aligned: bool, codes: seq<seq<bool>>, pos: nat, i: nat, next: nat)
    requires next == i + 1 <= |codes|
    ensures var front := Layout(aligned, codes[..i], pos);
            Layout(aligned, codes[..next], pos) == front + ToBits(Gap(aligned, pos + |front|), 0) + codes[i]
  {
    assert codes[..next][..i] == codes[..i];
  }

  lemma {:induction false} LayoutGrows(aligned: bool, codes: seq<seq<bool>>, pos: nat, i: nat)
    requires i <= |codes|
    ensures |Layout(aligned, codes[..i], pos)| <= |Layout(aligned, codes, pos)|
    decreases |codes| - i
  {
    if i == |codes| {
      assert codes[..i] == codes;
    } else {
      LayoutNext(aligned, codes, pos, i, i + 1);
      LayoutGrows(aligned, codes, pos, i + 1);
    }
  }

  lemma LastAt(aligned: bool, codes: seq<seq<bool>>, pos: nat, bits: seq<bool>, i: nat, next: nat) returns (end: nat, p: nat)
    requires next == i + 1 <= |codes| && At(bits, pos, Layout(aligned, codes[..next], pos))
    ensures At(bits, pos, Layout(aligned, codes[..i], pos)) && At(bits, p, codes[i])
    ensures p == ElemPos(aligned, codes, pos, i) == end + Gap(aligned, end)
    ensures end == pos + |Layout(aligned, codes[..i], pos)| && pos + |Layout(aligned, codes[..next], pos)| == p + |codes[i]|
  {
    var front := Layout(aligned, codes[..i], pos);
    end := pos + |front|;
    p := end + Gap(aligned, end);
    LayoutNext(aligned, codes, pos, i, next);
    LastOf(bits, pos, front, ToBits(Gap(aligned, end), 0), codes[i], end, p);
  }

  lemma LastOf(bits: seq<bool>, pos: nat, front: seq<bool>, gap: seq<bool>, code: seq<bool>, end: nat, p: nat)
    requires At(bits, pos, front + gap + code) && end == pos + |front| && p == end + |gap|
    ensures At(bits, pos, front) && At(bits, p, code) && pos + |front + gap + code| == p + |code|
  {
    AtLast(bits, pos, front, gap, code);
  }

  /** Every element lies at its position. */
  lemma {:induction false} ElementsAt(aligned: bool, codes: seq<seq<bool>>, pos: nat, bits: seq<bool>, n: nat, i: nat)
    requires i < n <= |codes| && At(bits, pos, Layout(aligned, codes[..n], pos))
    ensures At(bits, ElemPos(aligned, codes, pos, i), codes[i])
    decreases n
  {
    var end, p := LastAt(aligned, codes, pos, bits, n - 1, n);
    if i < n - 1 { ElementsAt(aligned, codes, pos, bits, n - 1, i); }
  }

  /** A reader of one element, from one state to the next. */
  type Reader<!S, !T> = (S, seq<bool>, nat) -> Read<(T, S)>

  function ReadElems<S, T>(read: Reader<S, T>, aligned: bool, st: S, n: nat, bits: seq<bool>, pos: nat): (r: Read<(seq<T>, S)>)
    ensures r.Ok? ==> |r.value.0| == n
  {
    if n == 0 then Ok(([], st), pos)
    else
      var (front, p) :- ReadElems(read, aligned, st, n - 1, bits, pos);
      if p + Gap(aligned, p) > |bits| then Failed
      else
        var (x, q) :- read(front.1, bits, p + Gap(aligned, p));
        Ok((front.0 + [x.0], x.1), q)
  }

  /** Reading at `code`, wherever it lies, gives `x` and goes from state `before` to `after`. */
  ghost predicate Takes<S, T>(read: Reader<S, T>, code: seq<bool>, before: S, x: T, after: S, bits: seq<bool>) {
    forall p: nat :: At(bits, p, code) ==> read(before, bits, p) == Ok((x, after), p + |code|)
  }

  lemma ReadStep<S, T>(read: Reader<S, T>, aligned: bool, st: S, n: nat, next: nat, bits: seq<bool>, pos: nat,
                       front: seq<T>, mid: S, end: nat, p: nat, x: T, after: S, q: nat)
    requires ReadElems(read, aligned, st, n, bits, pos) == Ok((front, mid), end) && next == n + 1
    requires p == end + Gap(aligned, end) <= |bits| && read(mid, bits, p) == Ok((x, after), q)
    ensures ReadElems(read, aligned, st, next, bits, pos) == Ok((front + [x], after), q)
  {}

  /** Element `i` is taken back from its code, and leads to the next state. */
  ghost predicate TakesAt<S, T>(read: Reader<S, T>, codes: seq<seq<bool>>, xs: seq<T>, states: seq<S>, bits: seq<bool>, i: nat) {
    i < |codes| && i < |xs| && i + 1 < |states| && Takes(read, codes[i], states[i], xs[i], states[i + 1], bits)
  }

  lemma ThenTakesAt<S, T>(read: Reader<S, T>, codes: seq<seq<bool>>, xs: seq<T>, states: seq<S>, bits: seq<bool>, i: nat, next: nat)
    requires i < |codes| && i < |xs| && next == i + 1 < |states| && Takes(read, codes[i], states[i], xs[i], states[next], bits)
    ensures TakesAt(read, codes, xs, states, bits, i)
  {}

  /** So is every element. */
  ghost predicate AllTake<S, T>(read: Reader<S, T>, codes: seq<seq<bool>>, xs: seq<T>, states: seq<S>, bits: seq<bool>) {
    && |codes| == |xs| == |states| - 1
    && forall i :: 0 <= i < |xs| ==> TakesAt(read, codes, xs, states, bits, i)
  }

  lemma TakenAt<S, T>(read: Reader<S, T>, codes: seq<seq<bool>>, xs: seq<T>, states: seq<S>, bits: seq<bool>, i: nat, next: nat, p: nat, q: nat)
    requires AllTake(read, codes, xs, states, bits) && next == i + 1 <= |xs|
    requires At(bits, p, codes[i]) && q == p + |codes[i]|
    ensures read(states[i], bits, p) == Ok((xs[i], states[next]), q)
  {
    assert TakesAt(read, codes, xs, states, bits, i);
  }

  /** If each element is taken back from its code, so are the first `n` from the layout. */
  lemma {:induction false} LayoutBack<S, T>(read: Reader<S, T>, aligned: bool, codes: seq<seq<bool>>, xs: seq<T>, states: seq<S>,
                                            bits: seq<bool>, pos: nat, n: nat) returns (end: nat)
    requires AllTake(read, codes, xs, states, bits) && n <= |codes| && At(bits, pos, Layout(aligned, codes[..n], pos))
    ensures end == pos + |Layout(aligned, codes[..n], pos)|
    ensures ReadElems(read, aligned, states[0], n, bits, pos) == Ok((xs[..n], states[n]), end)
  {
    end := pos;
    if n > 0 {
      var before, p := LastAt(aligned, codes, pos, bits, n - 1, n);
      var front := LayoutBack(read, aligned, codes, xs, states, bits, pos, n - 1);
      end := p + |codes[n - 1]|;
      ElementBehind(read, aligned, codes, xs, states, bits, pos, n - 1, n, front, p, end);
    }
  }

  lemma ElementBehind<S, T>(read: Reader<S, T>, aligned: bool, codes: seq<seq<bool>>, xs: seq<T>, states: seq<S>,
                            bits: seq<bool>, pos: nat, i: nat, next: nat, front: nat, p: nat, end: nat)
    requires AllTake(read, codes, xs, states, bits) && next == i + 1 <= |codes| && At(bits, p, codes[i])
    requires ReadElems(read, aligned, states[0], i, bits, pos) == Ok((xs[..i], states[i]), front)
    requires p == front + Gap(aligned, front) && end == p + |codes[i]|
    ensures ReadElems(read, aligned, states[0], next, bits, pos) == Ok((xs[..next], states[next]), end)
  {
    TakenAt(read, codes, xs, states, bits, i, next, p, end);
    ReadStep(read, aligned, states[0], i, next, bits, pos, xs[..i], states[i], front, p, xs[i], states[next], end);
    assert xs[..next] == xs[..i] + [xs[i]];
  }

  /** A read that fails early fails. */
  lemma {:induction false} FailsOn<S, T>(read: Reader<S, T>, aligned: bool, st: S, i: nat, n: nat, bits: seq<bool>, pos: nat)
    requires i <= n && ReadElems(read, aligned, st, i, bits, pos).Failed?
    ensures ReadElems(read, aligned, st, n, bits, pos).Failed?
    decreases n - i
  {
    if i < n { FailsOn(read, aligned, st, i + 1, n, bits, pos); }
  }

  lemma FailsAt<S, T>(read: Reader<S, T>, aligned: bool, st: S, i: nat, bits: seq<bool>, pos: nat,
                      front: seq<T>, mid: S, end: nat, p: nat)
    requires ReadElems(read, aligned, st, i, bits, pos) == Ok((front, mid), end)
    requires p == end + Gap(aligned, end) && (p > |bits| || read(mid, bits, p).Failed?)
    ensures ReadElems(read, aligned, st, i + 1, bits, pos).Failed?
  {}
}
