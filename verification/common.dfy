/** Shared vocabulary of the model: optional values, HTTP status codes,
    sequence helpers (filter, sum, stable descending sort) and the decimal
    digits used by every number-to-text conversion. */
module Common {

  /** A value that may be absent. It stands for SQL NULL in stored rows and for
      a missing or empty field in a request. */
  datatype Option<+T> = None | Some(value: T)

  /** Reply of a read: the value with status 200, or an error status. */
  datatype Reply<T> = Ok(value: T) | Err(status: int)

  // HTTP status codes the handlers answer with.
  const OK: int := 200
  const CREATED: int := 201
  const NO_CONTENT: int := 204
  const BAD_REQUEST: int := 400
  const UNAUTHORIZED: int := 401
  const FORBIDDEN: int := 403
  const NOT_FOUND: int := 404
  const INTERNAL_ERROR: int := 500

  /** Calendar days as ordinals. ISO `YYYY-MM-DD` text orders the same way, so
      SQL `BETWEEN` on dates becomes integer comparison. */
  type Date = int

  /** JavaScript truthiness of an optional number or text from a request:
      `undefined`, `null`, `0` and `""` are falsy. */
  predicate TruthyNumber(v: Option<int>)
  {
    v.Some? && v.value != 0
  }

  predicate TruthyText(v: Option<string>)
  {
    v.Some? && v.value != ""
  }

  /** A JavaScript number as far as this program needs it: an exact real, or
      one of the three values a division by zero produces. */
  datatype Ext = Finite(r: real) | PosInf | NegInf | NaN

  /** `(part / whole) * 100` in JavaScript. */
  function Percent(part: int, whole: int): (p: Ext)
    ensures whole != 0 ==> p == Finite((part as real / whole as real) * 100.0)
    ensures whole == 0 ==> (p == PosInf <==> part > 0) && (p == NegInf <==> part < 0) && (p == NaN <==> part == 0)
  {
    if whole != 0 then Finite((part as real / whole as real) * 100.0)
    else if part > 0 then PosInf
    else if part < 0 then NegInf
    else NaN
  }

  /** `x > bound` on a JavaScript number; every comparison with `NaN` is false. */
  predicate Above(x: Ext, bound: real)
  {
    match x
    case Finite(r) => r > bound
    case PosInf => true
    case NegInf => false
    case NaN => false
  }

  // ---------------------------------------------------------------------------
  // Sums and sorting over sequences
  // ---------------------------------------------------------------------------

  /** Sum of `f` over the elements of `s`. */
  function SumBy<T>(s: seq<T>, f: T -> int): int
  {
    if |s| == 0 then 0 else f(s[0]) + SumBy(s[1..], f)
  }

  lemma {:induction false} SumByAppend<T>(a: seq<T>, b: seq<T>, f: T -> int)
    ensures SumBy(a + b, f) == SumBy(a, f) + SumBy(b, f)
  {
    if |a| == 0 {
      assert a + b == b;
    } else {
      assert (a + b)[1..] == a[1..] + b;
      SumByAppend(a[1..], b, f);
    }
  }

  /** `s` is ordered from the largest key to the smallest. */
  ghost predicate SortedDesc<T>(s: seq<T>, key: T -> int)
  {
    forall i, j :: 0 <= i < j < |s| ==> key(s[i]) >= key(s[j])
  }

  /** Puts `x` in front of the first element whose key is not larger, so
      elements of equal key keep their relative order. */
  function Insert<T>(x: T, s: seq<T>, key: T -> int): (r: seq<T>)
    requires SortedDesc(s, key)
    ensures SortedDesc(r, key)
    ensures multiset(r) == multiset(s) + multiset{x}
    ensures |r| == |s| + 1
    ensures key(r[0]) == key(x) || (|s| > 0 && key(r[0]) == key(s[0]))
  {
    if |s| == 0 then [x]
    else if key(s[0]) <= key(x) then [x] + s
    else
      assert s == [s[0]] + s[1..];
      var rest := Insert(x, s[1..], key);
      assert key(rest[0]) <= key(s[0]);
      [s[0]] + rest
  }

  /** Stable sort from the largest key to the smallest (insertion sort). */
  function SortDesc<T>(s: seq<T>, key: T -> int): (r: seq<T>)
    ensures SortedDesc(r, key)
    ensures multiset(r) == multiset(s)
    ensures |r| == |s|
  {
    if |s| == 0 then []
    else
      assert s == [s[0]] + s[1..];
      Insert(s[0], SortDesc(s[1..], key), key)
  }

  /** Inserting adds exactly the inserted element's share to any sum. */
  lemma {:induction false} SumByInsert<T>(x: T, s: seq<T>, key: T -> int, f: T -> int)
    requires SortedDesc(s, key)
    ensures SumBy(Insert(x, s, key), f) == f(x) + SumBy(s, f)
  {
    if |s| == 0 || key(s[0]) <= key(x) {
      assert ([x] + s)[1..] == s;
    } else {
      SumByInsert(x, s[1..], key, f);
      assert ([s[0]] + Insert(x, s[1..], key))[1..] == Insert(x, s[1..], key);
    }
  }

  /** Sorting reorders rows but never changes a sum over them. */
  lemma {:induction false} SumBySortDesc<T>(s: seq<T>, key: T -> int, f: T -> int)
    ensures SumBy(SortDesc(s, key), f) == SumBy(s, f)
  {
    if |s| != 0 {
      SumBySortDesc(s[1..], key, f);
      SumByInsert(s[0], SortDesc(s[1..], key), key, f);
    }
  }

  // ---------------------------------------------------------------------------
  // Distinct elements
  // ---------------------------------------------------------------------------

  /** No element occurs twice. */
  ghost predicate Distinct<T>(s: seq<T>)
  {
    forall i, j :: 0 <= i < j < |s| ==> s[i] != s[j]
  }

  lemma {:induction false} DistinctOccursOnce<T>(s: seq<T>, x: T)
    requires Distinct(s)
    ensures multiset(s)[x] <= 1
  {
    if |s| > 0 {
      assert s == [s[0]] + s[1..];
      assert Distinct(s[1..]) by {
        forall i, j | 0 <= i < j < |s[1..]| ensures s[1..][i] != s[1..][j] {
          assert s[1..][i] == s[i + 1] && s[1..][j] == s[j + 1];
        }
      }
      DistinctOccursOnce(s[1..], x);
      if x == s[0] {
        assert s[0] !in s[1..] by {
          forall k | 0 <= k < |s[1..]| ensures s[1..][k] != s[0] {
            assert s[1..][k] == s[k + 1];
          }
        }
      }
    }
  }

  /** Prepending an element keeps the elements distinct exactly when it is
      new. */
  lemma DistinctCons<T>(x: T, s: seq<T>)
    ensures Distinct([x] + s) <==> x !in s && Distinct(s)
  {
    var r := [x] + s;
    if x !in s && Distinct(s) {
      forall i, j | 0 <= i < j < |r| ensures r[i] != r[j] {
        assert r[j] == s[j - 1];
        if i > 0 {
          assert r[i] == s[i - 1];
        }
      }
    }
    if Distinct(r) {
      forall i, j | 0 <= i < j < |s| ensures s[i] != s[j] {
        assert s[i] == r[i + 1] && s[j] == r[j + 1];
      }
      forall k | 0 <= k < |s| ensures s[k] != x {
        assert r[0] == x && r[k + 1] == s[k];
        assert r[0] != r[k + 1];
      }
    }
  }

  /** Reordering keeps elements distinct. */
  lemma DistinctPermutation<T>(a: seq<T>, b: seq<T>)
    requires multiset(a) == multiset(b)
    requires Distinct(a)
    ensures Distinct(b)
  {
    forall i, j | 0 <= i < j < |b| ensures b[i] != b[j] {
      if b[i] == b[j] {
        assert b == b[..j] + b[j..];
        assert b[i] == b[..j][i];
        assert b[j] == b[j..][0];
        assert multiset(b[..j])[b[i]] >= 1;
        assert multiset(b[j..])[b[i]] >= 1;
        DistinctOccursOnce(a, b[i]);
        assert false;
      }
    }
  }
}
