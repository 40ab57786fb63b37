/** Vocabulary shared by the memory server, the swap server and the message formats. */
module Base {

  newtype Byte = x: int | 0 <= x < 256

  type Bytes = seq<Byte>

  /** A 32-bit integer as it lies in memory, low byte first. */
  function Word(n: int): (w: Bytes)
    ensures |w| == 4
  {
    var second := n / 256;
    var third := second / 256;
    [(n % 256) as Byte, (second % 256) as Byte, (third % 256) as Byte, (third / 256 % 256) as Byte]
  }

  /** A page is named by its process and by its number inside that process, counted from 1. */
  datatype PageId = PageId(pid: nat, num: nat)

  /** How frames and swap slots are shared out: a fixed quota per process, or one common pool. */
  datatype Allocation = Fixed | Dynamic

  datatype Option<+T> = None | Some(value: T) {
    function GetOr(default: T): T {
      if Some? then value else default
    }

    predicate IsFailure() {
      None?
    }

    function PropagateFailure<U>(): Option<U>
      requires None?
    {
      None
    }

    function Extract(): T
      requires Some?
    {
      value
    }
  }

  /** Ways in which a request stops without an answer. */
  datatype Fault =
    | NoCandidate   // the victim list is empty, or the clock hand has left it
    | SwapCrash     // the swap server dies
    | SwapRefused   // the swap server refuses the page; memory ignores the refusal and the page is lost
    | SwapMissing   // the page was never stored

  datatype Result<+T> = Ok(value: T) | Fail(fault: Fault) {
    predicate IsFailure() {
      Fail?
    }

    function PropagateFailure<U>(): Result<U>
      requires Fail?
    {
      Fail(fault)
    }

    function Extract(): T
      requires Ok?
    {
      value
    }
  }

  /** The position of the first element that satisfies `f`, or the length when none does. */
  function First<T>(xs: seq<T>, f: T -> bool): (r: nat)
    ensures r <= |xs|
    ensures r < |xs| ==> f(xs[r])
    ensures forall k :: 0 <= k < r ==> !f(xs[k])
  {
    if |xs| == 0 then 0
    else if f(xs[0]) then 0
    else 1 + First(xs[1..], f)
  }

  /** Replaces one element; a position outside the list leaves it alone. */
  function Put<T>(xs: seq<T>, i: nat, x: T): (r: seq<T>)
    ensures |r| == |xs|
    ensures forall k :: 0 <= k < |xs| ==> r[k] == if k == i then x else xs[k]
  {
    if i < |xs| then xs[i := x] else xs
  }

  /** How many elements satisfy `f`. */
  function Count<T>(xs: seq<T>, f: T -> bool): (n: nat)
    ensures n <= |xs|
  {
    if |xs| == 0 then 0
    else Count(xs[..|xs| - 1], f) + if f(xs[|xs| - 1]) then 1 else 0
  }

  lemma {:induction false} CountUpdate<T>(xs: seq<T>, f: T -> bool, i: nat, x: T)
    requires i < |xs|
    ensures Count(xs[i := x], f) == Count(xs, f) - (if f(xs[i]) then 1 else 0) + (if f(x) then 1 else 0)
  {
    var n := |xs| - 1;
    if i == n {
      assert xs[i := x][..n] == xs[..n];
    } else {
      assert xs[i := x][..n] == xs[..n][i := x];
      CountUpdate(xs[..n], f, i, x);
    }
  }

  lemma {:induction false} CountPositive<T>(xs: seq<T>, f: T -> bool)
    ensures Count(xs, f) > 0 <==> exists i :: 0 <= i < |xs| && f(xs[i])
  {
    if |xs| > 0 {
      var n := |xs| - 1;
      CountPositive(xs[..n], f);
      if Count(xs, f) > 0 && !f(xs[n]) {
        var i :| 0 <= i < n && f(xs[..n][i]);
        assert f(xs[i]);
      }
      if i :| 0 <= i < |xs| && f(xs[i]) {
        assert i < n ==> f(xs[..n][i]);
      }
    }
  }
}
