/** Small pieces shared by every module: Go's nil-able values, error returns,
    truncating integer division and substring search. */
module Common {

  /** A Go pointer or slice that may be nil. */
  datatype Option<+T> = None | Some(value: T) {
    function GetOr(default: T): T {
      match this
      case Some(v) => v
      case None => default
    }
  }

  /** A Go `(value, error)` pair where exactly one side is meaningful. */
  datatype Result<+T, +E> = Ok(value: T) | Err(error: E)

  function Abs(x: int): nat { if x < 0 then -x else x }

  /** Go's `/` on integers truncates toward zero, whereas Dafny's `/` is Euclidean:
      the remainder takes the dividend's sign and is smaller than the divisor, and the
      quotient's size is the quotient of the sizes. */
  function GoDiv(a: int, b: int): (q: int)
    requires b > 0
    ensures 0 <= a ==> 0 <= a - q * b < b
    ensures a < 0 ==> -b < a - q * b <= 0
    ensures Abs(q) == Abs(a) / b
  {
    if a >= 0 then a / b else -((-a) / b)
  }

  /** The elements of s that satisfy p, in the order s has them. */
  function Filter<T(!new)>(s: seq<T>, p: T -> bool): (r: seq<T>)
    ensures |r| <= |s|
    ensures forall x :: x in r <==> x in s && p(x)
    decreases |s|
  {
    if s == [] then []
    else
      var rest := Filter(s[1..], p);
      assert forall x :: x in s <==> x == s[0] || x in s[1..];
      if p(s[0]) then [s[0]] + rest else rest
  }

  lemma {:induction false} FilterAppend<T(!new)>(a: seq<T>, b: seq<T>, p: T -> bool)
    ensures Filter(a + b, p) == Filter(a, p) + Filter(b, p)
    decreases |a|
  {
    if a == [] {
      assert a + b == b;
    } else {
      assert (a + b)[0] == a[0] && (a + b)[1..] == a[1..] + b;
      FilterAppend(a[1..], b, p);
    }
  }

  /** Go's `strings.Contains`. */
  predicate HasSubstring(s: string, sub: string)
    decreases |s|
  {
    sub <= s || (s != [] && HasSubstring(s[1..], sub))
  }

  /** A sequence that starts with p + [x] continues past p with x. */
  lemma SuffixAfterPrefix<T>(r: seq<T>, p: seq<T>, x: T)
    requires |p| + 1 <= |r| && r[..|p| + 1] == p + [x]
    ensures r[|p|..] == [x] + r[|p| + 1..]
  {
    assert r[|p|] == (p + [x])[|p|];
  }
}
