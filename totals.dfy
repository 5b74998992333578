/** The per-child totals a sizing job collects (`HashMap<String, u64>`) and the
    sum of its values that makes the summary. */
module Totals {
  import opened Common
  import opened Cancel

  /** The map after inserting the `(name, bytes)` pairs in order: a later pair for
      the same name overwrites an earlier one. */
  function InsertAll(m: map<string, nat>, ps: seq<(string, nat)>): map<string, nat>
  {
    if |ps| == 0 then m
    else InsertAll(m, ps[..|ps| - 1])[ps[|ps| - 1].0 := ps[|ps| - 1].1]
  }

  /** A name has a total after the insertions exactly when it had one before or
      some inserted pair names it; its total is then that of the last such pair. */
  lemma {:induction false} InsertAllKeys(m: map<string, nat>, ps: seq<(string, nat)>, n: string)
    ensures n in InsertAll(m, ps) <==> n in m || exists i :: 0 <= i < |ps| && ps[i].0 == n
    ensures forall i :: 0 <= i < |ps| && ps[i].0 == n && (forall j :: i < j < |ps| ==> ps[j].0 != n) ==>
      InsertAll(m, ps)[n] == ps[i].1
  {
    if |ps| > 0 {
      var p := ps[..|ps| - 1];
      InsertAllKeys(m, p, n);
      if i :| 0 <= i < |p| && p[i].0 == n {
        assert ps[i] == p[i];
      }
      forall i | 0 <= i < |ps| && ps[i].0 == n && (forall j :: i < j < |ps| ==> ps[j].0 != n)
        ensures InsertAll(m, ps)[n] == ps[i].1
      {
        if i < |ps| - 1 {
          assert p[i] == ps[i];
          assert forall j :: i < j < |p| ==> p[j] == ps[j];
        }
      }
    }
  }

  /** The names with a total after the insertions are those before plus the inserted ones. */
  lemma {:induction false} InsertAllDomain(m: map<string, nat>, ps: seq<(string, nat)>)
    ensures InsertAll(m, ps).Keys == m.Keys + (set p | p in ps :: p.0)
  {
    if |ps| > 0 {
      var p := ps[..|ps| - 1];
      InsertAllDomain(m, p);
      assert ps == p + [ps[|ps| - 1]];
      assert (set q | q in ps :: q.0) == (set q | q in p :: q.0) + {ps[|ps| - 1].0};
    }
  }

  /** When every earlier total and every inserted pair gives a name the value
      `f` assigns it, so does the result. */
  lemma {:induction false} InsertAllAgrees(m: map<string, nat>, ps: seq<(string, nat)>, f: string -> nat)
    requires forall n :: n in m ==> m[n] == f(n)
    requires forall i :: 0 <= i < |ps| ==> ps[i].1 == f(ps[i].0)
    ensures forall n :: n in InsertAll(m, ps) ==> InsertAll(m, ps)[n] == f(n)
  {
    if |ps| > 0 {
      InsertAllAgrees(m, ps[..|ps| - 1], f);
    }
  }

  /** When every earlier total and every inserted value is at most what `f`
      gives its name, so is every total after the insertions. */
  lemma {:induction false} InsertAllBounded(m: map<string, nat>, ps: seq<(string, nat)>, f: string -> nat)
    requires forall n :: n in m ==> m[n] <= f(n)
    requires forall i :: 0 <= i < |ps| ==> ps[i].1 <= f(ps[i].0)
    ensures forall n :: n in InsertAll(m, ps) ==> InsertAll(m, ps)[n] <= f(n)
  {
    if |ps| > 0 {
      InsertAllBounded(m, ps[..|ps| - 1], f);
    }
  }

  /** The sum of the values of a map, in no particular order. */
  ghost function MapSum(m: map<string, nat>): nat
    decreases |m|
  {
    if |m| == 0 then 0
    else
      var k := PickKey(m);
      m[k] + MapSum(m - {k})
  }

  ghost function PickKey(m: map<string, nat>): (k: string)
    requires |m| > 0
    ensures k in m
  {
    var k :| k in m; k
  }

  /** The sum does not depend on which key is taken out first. */
  lemma {:induction false} MapSumRemove(m: map<string, nat>, k: string)
    requires k in m
    ensures MapSum(m) == m[k] + MapSum(m - {k})
    decreases |m|
  {
    var j := PickKey(m);
    if j != k {
      MapSumRemove(m - {j}, k);
      MapSumRemove(m - {k}, j);
      assert m - {j} - {k} == m - {k} - {j};
    }
  }

  /** A map whose names are among another's, each with a value no larger,
      sums to no more. */
  lemma {:induction false} MapSumMonotone(m: map<string, nat>, big: map<string, nat>)
    requires m.Keys <= big.Keys
    requires forall n :: n in m ==> m[n] <= big[n]
    ensures MapSum(m) <= MapSum(big)
    decreases |big|
  {
    if |m| > 0 {
      var k := PickKey(m);
      MapSumRemove(big, k);
      MapSumMonotone(m - {k}, big - {k});
    }
  }

  /** `child_totals.values().sum()`. */
  method SumValues(m: map<string, nat>) returns (s: nat)
    ensures s == MapSum(m)
  {
    s := 0;
    var rest := m;
    while |rest| > 0
      invariant s + MapSum(rest) == MapSum(m)
      decreases |rest|
    {
      var k := PickName(rest);
      MapSumRemove(rest, k);
      s := s + rest[k];
      rest := rest - {k};
    }
  }

  /** Some key of a non-empty map, the way an iterator yields its next key. */
  method PickName(m: map<string, nat>) returns (k: string)
    requires |m| > 0
    ensures k in m
  {
    k :| k in m;
  }

  /** The collect loop: inserts each task's result in order, and stops right
      after the first insertion after which cancellation is seen. Returns the
      totals and how many results were inserted. */
  method Collect(tasks: seq<(string, nat)>, totals: map<string, nat>, token: CancelToken)
    returns (collected: map<string, nat>, m: nat)
    modifies token
    ensures m == Min(Budget(old(token.LoadsLeft()), |tasks|) + 1, |tasks|)
    ensures collected == InsertAll(totals, tasks[..m])
    ensures token.LoadsLeft() == Consume(old(token.LoadsLeft()), m)
    ensures m < |tasks| ==> token.canceled
    ensures old(token.canceled) ==> token.canceled
  {
    ghost var left := token.LoadsLeft();
    collected := totals;
    m := 0;
    while m < |tasks|
      invariant m <= |tasks| && collected == InsertAll(totals, tasks[..m])
      invariant left.None? || m <= left.value
      invariant token.LoadsLeft() == Consume(left, m)
      invariant old(token.canceled) ==> token.canceled
    {
      assert tasks[..m + 1][..m] == tasks[..m];
      collected := collected[tasks[m].0 := tasks[m].1];
      m := m + 1;
      var c := token.Load();
      if c {
        break;
      }
    }
  }
}
