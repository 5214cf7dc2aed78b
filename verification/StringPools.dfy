/** A string pool as a case-insensitive dictionary. `fold` is any function that says which
    strings are the same but for their case; a pool only grows, and of the strings with one
    fold it keeps the first that it was given. */
module StringPools {
  predicate Has(fold: string -> string, pool: seq<string>, s: string) {
    exists i :: 0 <= i < |pool| && fold(pool[i]) == fold(s)
  }

  /** How `pool` spells `s`: like the first of its strings that is the same but for case. */
  function Spelling(fold: string -> string, pool: seq<string>, s: string): (r: string)
    ensures fold(r) == fold(s)
    ensures r == s || r in pool
  {
    if pool == [] then s
    else if fold(pool[0]) == fold(s) then pool[0]
    else Spelling(fold, pool[1..], s)
  }

  function Emplaced(fold: string -> string, pool: seq<string>, s: string): (r: seq<string>)
    ensures pool <= r
  {
    if Has(fold, pool, s) then pool else pool + [s]
  }

  function EmplacedAll(fold: string -> string, pool: seq<string>, names: seq<string>): (r: seq<string>)
    ensures pool <= r
    decreases |names|
  {
    if names == [] then pool else Emplaced(fold, EmplacedAll(fold, pool, names[..|names| - 1]), names[|names| - 1])
  }

  lemma HasTail(fold: string -> string, pool: seq<string>, s: string)
    requires pool != []
    ensures Has(fold, pool, s) <==> fold(pool[0]) == fold(s) || Has(fold, pool[1..], s)
  {
    if i :| 0 <= i < |pool| && fold(pool[i]) == fold(s) && i > 0 { assert pool[1..][i - 1] == pool[i]; }
    if i :| 0 <= i < |pool| - 1 && fold(pool[1..][i]) == fold(s) { assert pool[i + 1] == pool[1..][i]; }
  }

  lemma {:induction false} FirstSpells(fold: string -> string, pool: seq<string>, s: string, i: nat)
    requires i < |pool| && fold(pool[i]) == fold(s) && forall k :: 0 <= k < i ==> fold(pool[k]) != fold(s)
    ensures Spelling(fold, pool, s) == pool[i]
  {
    if i > 0 { FirstSpells(fold, pool[1..], s, i - 1); }
  }

  /** The id of a string: of the one that the pool has already, or of a new one at its end. */
  method Emplace(fold: string -> string, pool: seq<string>, s: string) returns (pool': seq<string>, id: nat)
    ensures pool' == Emplaced(fold, pool, s) && Has(fold, pool', s)
    ensures pool' == if exists i :: 0 <= i < |pool| && fold(pool[i]) == fold(s) then pool else pool + [s]
    ensures id < |pool'| && pool'[id] == Spelling(fold, pool', s)
  {
    for i := 0 to |pool|
      invariant forall k :: 0 <= k < i ==> fold(pool[k]) != fold(s)
    {
      if fold(pool[i]) == fold(s) {
        FirstSpells(fold, pool, s, i);
        return pool, i;
      }
    }
    pool' := pool + [s];
    FirstSpells(fold, pool', s, |pool|);
    return pool', |pool|;
  }

  /** What a pool spells differently it has, under the spelling that it gives. */
  lemma {:induction false} SpellingFound(fold: string -> string, pool: seq<string>, s: string)
    ensures if Has(fold, pool, s) then Spelling(fold, pool, s) in pool else Spelling(fold, pool, s) == s
  {
    if pool != [] && fold(pool[0]) != fold(s) {
      HasTail(fold, pool, s);
      SpellingFound(fold, pool[1..], s);
    }
  }

  /** No two strings of the pool are the same but for case. */
  predicate Unique(fold: string -> string, pool: seq<string>) {
    forall i, j :: 0 <= i < j < |pool| ==> fold(pool[i]) != fold(pool[j])
  }

  /** However many strings go to a pool, no two of it are the same but for case. */
  lemma {:induction false} StaysUnique(fold: string -> string, pool: seq<string>, names: seq<string>)
    requires Unique(fold, pool)
    ensures Unique(fold, EmplacedAll(fold, pool, names))
    decreases |names|
  {
    if names != [] { StaysUnique(fold, pool, names[..|names| - 1]); }
  }

  /** A spelling is for good: it does not change when the pool grows. */
  lemma {:induction false} SpellingStays(fold: string -> string, pool: seq<string>, pool': seq<string>, s: string)
    requires pool <= pool' && Has(fold, pool, s)
    ensures Has(fold, pool', s) && Spelling(fold, pool', s) == Spelling(fold, pool, s)
  {
    var i :| 0 <= i < |pool| && fold(pool[i]) == fold(s);
    assert pool'[i] == pool[i];
    if fold(pool[0]) != fold(s) {
      HasTail(fold, pool, s);
      SpellingStays(fold, pool[1..], pool'[1..], s);
    }
  }

  /** Strings that are the same but for case are spelled the same. */
  lemma {:induction false} OneSpelling(fold: string -> string, pool: seq<string>, a: string, b: string)
    requires Has(fold, pool, a) && fold(a) == fold(b)
    ensures Spelling(fold, pool, a) == Spelling(fold, pool, b)
  {
    if fold(pool[0]) != fold(a) {
      HasTail(fold, pool, a);
      OneSpelling(fold, pool[1..], a, b);
    }
  }

  /** The first string of its kind is spelled as it was given. */
  lemma EmplacedHas(fold: string -> string, pool: seq<string>, s: string)
    ensures Has(fold, Emplaced(fold, pool, s), s)
    ensures Spelling(fold, Emplaced(fold, pool, s), s) == Spelling(fold, pool, s)
  {
    if !Has(fold, pool, s) {
      var pool' := pool + [s];
      FirstSpells(fold, pool', s, |pool|);
      SpellingFound(fold, pool, s);
    }
  }

  lemma {:induction false} EmplacedAllHas(fold: string -> string, pool: seq<string>, names: seq<string>)
    ensures forall n :: n in names ==> Has(fold, EmplacedAll(fold, pool, names), n)
    ensures forall i :: |pool| <= i < |EmplacedAll(fold, pool, names)| ==> EmplacedAll(fold, pool, names)[i] in names
  {
    if names != [] {
      var front, last := names[..|names| - 1], names[|names| - 1];
      EmplacedAllHas(fold, pool, front);
      var pool' := EmplacedAll(fold, pool, front);
      EmplacedHas(fold, pool', last);
      forall n | n in names ensures Has(fold, EmplacedAll(fold, pool, names), n) {
        if n != last {
          assert n in front;
          SpellingStays(fold, pool', Emplaced(fold, pool', last), n);
        }
      }
    }
  }

  lemma EmplacedLast(fold: string -> string, pool: seq<string>, names: seq<string>, last: string)
    ensures EmplacedAll(fold, pool, names + [last]) == Emplaced(fold, EmplacedAll(fold, pool, names), last)
  {
    assert (names + [last])[..|names|] == names;
  }

  lemma {:induction false} EmplacedInTurn(fold: string -> string, pool: seq<string>, a: seq<string>, b: seq<string>)
    ensures EmplacedAll(fold, EmplacedAll(fold, pool, a), b) == EmplacedAll(fold, pool, a + b)
    decreases |b|
  {
    if b == [] {
      assert a + b == a;
    } else {
      EmplacedInTurn(fold, pool, a, b[..|b| - 1]);
      assert (a + b)[..|a + b| - 1] == a + b[..|b| - 1];
    }
  }

  /** No name is spelled differently by the pool. */
  ghost predicate Keeps(fold: string -> string, pool: seq<string>, names: iset<string>) {
    forall n :: n in names ==> Spelling(fold, pool, n) == n
  }

  /** No two of the names are the same but for case. */
  ghost predicate Apart(fold: string -> string, names: iset<string>) {
    forall n, m :: n in names && m in names && fold(n) == fold(m) ==> n == m
  }

  /** When a pool has grown by names of a set until it has them all, it keeps the spelling of
      all of them if and only if it did before and no two are the same but for case. */
  lemma KeepsIff(fold: string -> string, pool: seq<string>, pool': seq<string>, names: iset<string>)
    requires pool <= pool' && (forall i :: |pool| <= i < |pool'| ==> pool'[i] in names)
    requires forall n :: n in names ==> Has(fold, pool', n)
    ensures Keeps(fold, pool', names) <==> Keeps(fold, pool, names) && Apart(fold, names)
  {
    forall n | n in names ensures Has(fold, pool, n) ==> Spelling(fold, pool', n) == Spelling(fold, pool, n) {
      if Has(fold, pool, n) { SpellingStays(fold, pool, pool', n); }
    }
    forall n | n in names && !Has(fold, pool, n) ensures Spelling(fold, pool, n) == n && Spelling(fold, pool', n) in names {
      SpellingFound(fold, pool, n);
      SpellingFound(fold, pool', n);
      var i :| 0 <= i < |pool'| && pool'[i] == Spelling(fold, pool', n);
      assert forall k :: 0 <= k < |pool| ==> fold(pool'[k]) == fold(pool[k]) != fold(n);
    }
    if Keeps(fold, pool', names) {
      forall n, m | n in names && m in names && fold(n) == fold(m) ensures n == m { OneSpelling(fold, pool', n, m); }
    }
  }
}
