/**
 * Per-slot progress and status of a generation run, and the updaters the page
 * applies to them (`[...prev]` copied, one index overwritten).
 */
module Progress {

  /** The status strings the page writes: 'pending', 'generating', 'completed'. */
  datatype Status = Pending | Generating | Completed

  /** One simulated tick's increment, `Math.random() * 10`. */
  type Increment = d: real | 0.0 <= d < 10.0

  /** A slot below this value still grows on a tick. */
  const TickCeiling: real := 90.0

  /** Every slot is a percentage. */
  predicate InRange(p: seq<real>) {
    forall j :: 0 <= j < |p| ==> 0.0 <= p[j] <= 100.0
  }

  /** `new Array(n).fill(v)` */
  function Filled<T>(n: nat, v: T): (r: seq<T>)
    ensures |r| == n && forall j :: 0 <= j < n ==> r[j] == v
  {
    seq(n, _ => v)
  }

  /**
   * The updater `newX = [...prev]; newX[i] = v`: only slot `i` changes and
   * the length stays.
   */
  function SetSlot<T>(s: seq<T>, i: nat, v: T): (r: seq<T>)
    requires i < |s|
    ensures |r| == |s| && r[i] == v
    ensures forall j :: 0 <= j < |s| && j != i ==> r[j] == s[j]
  {
    s[i := v]
  }

  /**
   * The interval's updater: slot `i` grows by `d` only while it is below 90;
   * a slot past the end of the array (`undefined < 90` is false) stays absent.
   */
  function Tick(p: seq<real>, i: nat, d: Increment): (r: seq<real>)
    ensures |r| == |p|
    ensures forall j :: 0 <= j < |p| && j != i ==> r[j] == p[j]
    ensures i < |p| ==> p[i] <= r[i] < p[i] + 10.0
    ensures i < |p| && r[i] != p[i] ==> p[i] < TickCeiling
    ensures i < |p| && p[i] < 100.0 ==> r[i] < 100.0
    ensures InRange(p) ==> InRange(r)
  {
    if i < |p| && p[i] < TickCeiling then p[i := p[i] + d] else p
  }

  /** The ticks that fire on slot `i`, in order. */
  function Ticks(p: seq<real>, i: nat, ds: seq<Increment>): (r: seq<real>)
    decreases |ds|
  {
    if ds == [] then p else Ticks(Tick(p, i, ds[0]), i, ds[1..])
  }

  /**
   * However many ticks fire, only slot `i` moves, it never shrinks, and a
   * slot that starts below 100 stays below 100.
   */
  lemma {:induction false} TicksBounded(p: seq<real>, i: nat, ds: seq<Increment>)
    requires i < |p| && 0.0 <= p[i] < 100.0
    ensures var r := Ticks(p, i, ds);
      |r| == |p| && p[i] <= r[i] < 100.0 &&
      forall j :: 0 <= j < |p| && j != i ==> r[j] == p[j]
    decreases |ds|
  {
    if ds != [] {
      TicksBounded(Tick(p, i, ds[0]), i, ds[1..]);
    }
  }

  /** Extending the tick list by one more tick is one more `Tick`. */
  lemma {:induction false} TicksSnoc(p: seq<real>, i: nat, ds: seq<Increment>, d: Increment)
    ensures Ticks(p, i, ds + [d]) == Tick(Ticks(p, i, ds), i, d)
    decreases |ds|
  {
    if ds == [] {
      assert [d][1..] == [];
    } else {
      assert (ds + [d])[1..] == ds[1..] + [d];
      TicksSnoc(Tick(p, i, ds[0]), i, ds[1..], d);
    }
  }
}
