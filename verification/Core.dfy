/** Values shared by every component: tasks going to the workers, results coming back. */
module Core {
  type byte = x: int | 0 <= x < 256

  const TWO_64: nat := 0x1_0000_0000_0000_0000

  datatype Option<+T> = None | Some(value: T)

  /** `requestId` is the id of the trace that travels with the task. */
  datatype InferenceTask = InferenceTask(clientFd: int, data: seq<byte>, requestId: nat)

  datatype InferenceResult = InferenceResult(clientFd: int, response: seq<byte>, requestId: nat)

  lemma Multiples(k: int, n: int)
    requires n > 0
    ensures k >= 1 ==> k * n >= n
    ensures k <= -1 ==> k * n <= -n
  {
  }

  lemma SameRemainder(a: nat, b: nat, n: nat, k: int)
    requires n > 0 && a == b + k * n
    ensures a % n == b % n
  {
    var q, p := a / n, b / n;
    assert a == q * n + a % n && b == p * n + b % n;
    assert (k - q + p) * n == k * n - q * n + p * n;
    Multiples(k - q + p, n);
  }

  lemma {:induction false} ProductNonNegative(a: nat, b: nat)
    ensures a * b >= 0
  {
    if a > 0 {
      ProductNonNegative(a - 1, b);
      assert a * b == (a - 1) * b + b;
    }
  }
}
