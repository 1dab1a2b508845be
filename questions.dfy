/**
 * Question selection for a recording (mobile/src/utils/questions.ts): a Fisher–Yates shuffle of
 * a copy of the question list followed by taking the first `count`, and a picker for the next
 * question that avoids questions already shown in the current session.
 *
 * `Math.random()` is an oracle: each call is a real in [0, 1) passed in by the caller, and
 * `Math.floor(r * n)` is `RandomIndex(r, n)`.
 */
module Questions {

  /** `Math.floor(r * n)` for `r` in [0, 1): an index below `n`. */
  function RandomIndex(r: real, n: nat): (k: nat)
    requires 0.0 <= r < 1.0 && n > 0
    ensures k < n
  {
    var x := r * n as real;
    assert x < n as real by {
      assert n as real - x == (1.0 - r) * n as real;
      assert (1.0 - r) * n as real > 0.0;
    }
    assert x >= 0.0;
    x.Floor
  }

  predicate ValidRandoms(randoms: seq<real>)
  {
    forall k :: 0 <= k < |randoms| ==> 0.0 <= randoms[k] < 1.0
  }

  /**
   * `questionsCopy.slice(0, Math.min(count, questionsCopy.length))`: a negative end counts
   * from the end of the list, and is 0 when it reaches before the start.
   */
  function TakeCount(count: int, n: nat): (k: nat)
    ensures k <= n
    ensures count >= 0 ==> k == if count <= n then count else n
    ensures count < 0 ==> k == if n + count >= 0 then n + count else 0
  {
    var end := if count <= n then count else n;
    if end >= 0 then end else if n + end >= 0 then n + end else 0
  }

  /**
   * The Fisher–Yates loop over a copy of `source`: for i from the last index down to 1, swap
   * element i with a random element at or below i. The result is a permutation of `source`.
   */
  method Shuffle(source: seq<string>, randoms: seq<real>) returns (shuffled: seq<string>)
    requires |source| <= |randoms| + 1 && ValidRandoms(randoms)
    ensures |shuffled| == |source|
    ensures multiset(shuffled) == multiset(source)
  {
    var a := new string[|source|](k requires 0 <= k < |source| => source[k]);
    assert a[..] == source;
    var i := a.Length - 1;
    while i > 0
      invariant i < a.Length
      invariant multiset(a[..]) == multiset(source)
      decreases i
    {
      var j := RandomIndex(randoms[a.Length - 1 - i], i + 1);
      a[i], a[j] := a[j], a[i];
      i := i - 1;
    }
    shuffled := a[..];
  }

  predicate Distinct(s: seq<string>)
  {
    forall i, j :: 0 <= i < j < |s| ==> s[i] != s[j]
  }

  /** `questionPool.filter(q => !used.has(q))`, order kept. */
  function Unused(pool: seq<string>, used: set<string>): (r: seq<string>)
    ensures |r| <= |pool|
    ensures forall q :: q in r <==> q in pool && q !in used
  {
    if pool == [] then []
    else (if pool[0] !in used then [pool[0]] else []) + Unused(pool[1..], used)
  }

  /** `questionPool.filter(q => q !== currentQuestion)`, order kept. */
  function Others(pool: seq<string>, current: string): (r: seq<string>)
    ensures |r| <= |pool|
    ensures forall q :: q in r <==> q in pool && q != current
  {
    Unused(pool, {current})
  }

  /** The session's set of questions already shown (`usedQuestionsInCurrentSession`). */
  class QuestionSession {
    var used: set<string>

    constructor()
      ensures used == {}
    {
      used := {};
    }

    /**
     * `getRandomQuestions`: the first min(count, |source|) questions of a shuffled copy, so at
     * most as many of each question as the source holds; the session's used set is emptied.
     */
    method GetRandomQuestions(source: seq<string>, count: int, randoms: seq<real>) returns (picked: seq<string>)
      requires |source| <= |randoms| + 1 && ValidRandoms(randoms)
      modifies this
      ensures used == {}
      ensures |picked| == TakeCount(count, |source|)
      ensures multiset(picked) <= multiset(source)
    {
      var shuffled := Shuffle(source, randoms);
      used := {};
      picked := shuffled[..TakeCount(count, |shuffled|)];
      PrefixMultiset(shuffled, |picked|);
    }

    /**
     * `getNextQuestion`: records `current` as used, then returns a random unused pool question;
     * when none is left it returns a random pool question other than `current` and restarts the
     * used set with it; when the pool has no other question it returns `current`.
     */
    method GetNextQuestion(pool: seq<string>, current: string, r: real) returns (next: string)
      requires 0.0 <= r < 1.0
      modifies this
      ensures Unused(pool, old(used) + {current}) != [] ==>
        && next in pool && next !in old(used) && next != current
        && used == old(used) + {current}
      ensures Unused(pool, old(used) + {current}) == [] && Others(pool, current) != [] ==>
        && next in pool && next != current
        && used == {next}
      ensures Unused(pool, old(used) + {current}) == [] && Others(pool, current) == [] ==>
        && next == current
        && used == old(used) + {current}
    {
      used := used + {current};
      var available := Unused(pool, used);
      if |available| == 0 {
        var anyExceptCurrent := Others(pool, current);
        if |anyExceptCurrent| == 0 {
          return current;
        }
        next := anyExceptCurrent[RandomIndex(r, |anyExceptCurrent|)];
        used := {};
        used := used + {next};
        return next;
      }
      next := available[RandomIndex(r, |available|)];
    }
  }

  lemma PrefixMultiset(s: seq<string>, k: nat)
    requires k <= |s|
    ensures multiset(s[..k]) <= multiset(s)
  {
    assert s == s[..k] + s[k..];
  }

  /** A list with no repeated question yields a pick with no repeated question. */
  lemma PickFromDistinctIsDistinct(source: seq<string>, picked: seq<string>)
    requires Distinct(source)
    requires multiset(picked) <= multiset(source)
    ensures Distinct(picked)
  {
    forall i, j | 0 <= i < j < |picked| ensures picked[i] != picked[j] {
      if picked[i] == picked[j] {
        var q := picked[i];
        TwoOccurrences(picked, i, j);
        AtMostOneOccurrence(source, q);
        assert false;
      }
    }
  }

  lemma {:induction false} TwoOccurrences(s: seq<string>, i: nat, j: nat)
    requires i < j < |s| && s[i] == s[j]
    ensures multiset(s)[s[i]] >= 2
  {
    var q := s[i];
    assert s == s[..i] + [q] + s[i + 1..j] + [q] + s[j + 1..];
  }

  lemma {:induction false} AtMostOneOccurrence(s: seq<string>, q: string)
    requires Distinct(s)
    ensures multiset(s)[q] <= 1
  {
    if s != [] {
      AtMostOneOccurrence(s[1..], q);
      assert s == [s[0]] + s[1..];
      if s[0] == q {
        assert q !in s[1..];
      }
    }
  }
}
