/**
 * Shared vocabulary of the request handlers: optional values (JavaScript's
 * `undefined`/`null`), HTTP statuses, request-body patch fields, and the
 * array primitives the handlers use (`findIndex`/`indexOf`, `splice`).
 */
module Common {

  /** A value that may be `undefined` or `null` in the source. */
  datatype Option<+T> = None | Some(value: T) {
    /** `x || d` for a value whose only falsy form is absence. */
    function GetOr(default: T): T {
      match this
      case Some(v) => v
      case None => default
    }
  }

  /** The HTTP statuses the handlers answer with. */
  datatype Status = OK | Created | BadRequest | Unauthorized | NotFound | ServerError

  /** A read-only handler's answer: a body, or an error status. */
  datatype Result<+T> = Success(value: T) | Failure(status: Status)

  /** One key of a JSON request body: absent (reads as `undefined`) or given (possibly `null`). */
  datatype Field<+T> = Absent | Given(value: T)

  /** `given !== undefined ? given : current` */
  function Merge<T>(current: T, f: Field<T>): T {
    match f
    case Absent => current
    case Given(v) => v
  }

  /** JavaScript truthiness of an optional string: neither `undefined`/`null` nor `''`. */
  predicate Truthy(s: Option<string>) {
    s.Some? && s.value != ""
  }

  /** `k` is the first position of `x` in `xs`. */
  predicate IsFirst(xs: seq<int>, x: int, k: int) {
    0 <= k < |xs| && xs[k] == x && forall j :: 0 <= j < k ==> xs[j] != x
  }

  /** `xs.findIndex(y => y === x)` (and `xs.indexOf(x)`), with `None` for -1. */
  function FindFirst(xs: seq<int>, x: int): (r: Option<nat>)
    ensures r.Some? ==> IsFirst(xs, x, r.value)
    ensures r.None? <==> x !in xs
  {
    if |xs| == 0 then None
    else if xs[0] == x then Some(0)
    else match FindFirst(xs[1..], x)
      case None => None
      case Some(i) => Some(i + 1)
  }

  /** `xs.splice(k, 1)` */
  function RemoveAt<T>(xs: seq<T>, k: nat): (r: seq<T>)
    requires k < |xs|
    ensures |r| == |xs| - 1
    ensures forall j :: 0 <= j < k ==> r[j] == xs[j]
    ensures forall j :: k <= j < |r| ==> r[j] == xs[j + 1]
  {
    xs[..k] + xs[k + 1..]
  }

  /**
   * Total quantity recorded for `x` in a pair of parallel arrays: the sum of
   * `qs[i]` over every position `i` with `ids[i] == x`.
   */
  function QtyOf(ids: seq<int>, qs: seq<int>, x: int): int
    requires |ids| == |qs|
  {
    if |ids| == 0 then 0
    else
      var n := |ids| - 1;
      QtyOf(ids[..n], qs[..n], x) + (if ids[n] == x then qs[n] else 0)
  }

  lemma {:induction false} QtyOfAppend(ids: seq<int>, qs: seq<int>, id: int, q: int, x: int)
    requires |ids| == |qs|
    ensures QtyOf(ids + [id], qs + [q], x) == QtyOf(ids, qs, x) + (if id == x then q else 0)
  {
    assert (ids + [id])[..|ids|] == ids;
    assert (qs + [q])[..|qs|] == qs;
  }

  /** Adding `q` at position `k` adds `q` to the total of the id stored there, and to no other. */
  lemma {:induction false} QtyOfBump(ids: seq<int>, qs: seq<int>, k: nat, q: int, x: int)
    requires |ids| == |qs| && k < |ids|
    ensures QtyOf(ids, qs[k := qs[k] + q], x) == QtyOf(ids, qs, x) + (if ids[k] == x then q else 0)
  {
    var n := |ids| - 1;
    var qs' := qs[k := qs[k] + q];
    if k == n {
      assert qs'[..n] == qs[..n];
    } else {
      QtyOfBump(ids[..n], qs[..n], k, q, x);
      assert qs'[..n] == qs[..n][k := qs[..n][k] + q];
    }
  }

  /** An id that does not occur has total zero. */
  lemma {:induction false} QtyOfAbsent(ids: seq<int>, qs: seq<int>, x: int)
    requires |ids| == |qs| && x !in ids
    ensures QtyOf(ids, qs, x) == 0
  {
    if |ids| > 0 {
      var n := |ids| - 1;
      assert x !in ids[..n] by {
        forall j | 0 <= j < n ensures ids[..n][j] != x {
          assert ids[j] == ids[..n][j];
        }
      }
      QtyOfAbsent(ids[..n], qs[..n], x);
    }
  }
}
