/** The retry arithmetic of process (internal/consume/consume.go:448-493). Durations in milliseconds. */
module Backoff {

  const FIRST := 100
  const CAP := 30_000
  const ACK_RETRY := 100

  function Next(backoff: int): int {
    if backoff < CAP then backoff * 2 else backoff
  }

  /** The wait after the (k+1)-th transient failure, as the loop variable takes it. */
  function Wait(k: nat): int {
    if k == 0 then FIRST else Next(Wait(k - 1))
  }

  function Waits(n: nat): (w: seq<int>)
    ensures |w| == n && forall k :: 0 <= k < n ==> w[k] == Wait(k)
  {
    seq(n, k requires 0 <= k < n => Wait(k))
  }

  lemma WaitsSnoc(before: seq<int>, n: nat)
    requires n > 0
    ensures before + Waits(n - 1) + [Wait(n - 1)] == before + Waits(n)
  {
    assert Waits(n) == Waits(n - 1) + [Wait(n - 1)];
  }

  function Pow2(n: nat): nat {
    if n == 0 then 1 else 2 * Pow2(n - 1)
  }

  function Total(n: nat): int {
    if n == 0 then 0 else Total(n - 1) + Wait(n - 1)
  }

  /** Exponential up to 51.2s, then constant: the doubling stops at the first wait that is at least 30s. */
  lemma {:induction false} WaitClosedForm(k: nat)
    ensures Wait(k) == 100 * Pow2(if k < 9 then k else 9)
    ensures Wait(k) <= 51_200 && (k >= 9 ==> Wait(k) == 51_200)
  {
    if k > 0 { WaitClosedForm(k - 1); }
    PowersTo9(if k < 9 then k else 9);
    if k > 0 { PowersTo9(if k < 10 then k - 1 else 9); }
  }

  lemma PowersTo9(n: nat)
    requires n <= 9
    ensures Pow2(n) == [1, 2, 4, 8, 16, 32, 64, 128, 256, 512][n]
  {
    if n > 0 { PowersTo9(n - 1); }
  }

  lemma {:induction false} TotalClosedForm(k: nat)
    ensures k <= 10 ==> Total(k) == 100 * (Pow2(k) - 1)
    ensures k >= 10 ==> Total(k) == 102_300 + 51_200 * (k - 10)
  {
    if k > 0 {
      TotalClosedForm(k - 1);
      WaitClosedForm(k - 1);
    }
    if k == 10 { PowersTo9(9); assert Pow2(10) == 2 * Pow2(9); }
    if k == 11 { PowersTo9(9); assert Pow2(10) == 2 * Pow2(9); }
  }
}
