/** Small shared vocabulary: optional values, pass/fail outcomes and the
    "keep only the most recent N entries" rule that both audit logs use. */
module Common {

  datatype Option<+T> = None | Some(value: T)

  /** The outcome of an operation that either completes or throws an error. */
  datatype Outcome<+E> = Pass | Fail(error: E)

  /** What `arr.slice(-cap)` leaves after a push made `arr` longer than `cap`:
      the last `cap` elements, or everything when there are not that many. */
  function KeepLast<T>(s: seq<T>, cap: nat): (r: seq<T>)
    ensures |r| <= cap || r == s
    ensures |r| == if |s| <= cap then |s| else cap
    ensures s == s[..|s| - |r|] + r
  {
    if |s| > cap then s[|s| - cap..] else s
  }

  /** Capping, then appending more and capping again, keeps the same entries
      as appending everything first and capping once: a capped log always
      holds the most recent entries of everything ever appended. */
  lemma {:induction false} KeepLastAppend<T>(s: seq<T>, t: seq<T>, cap: nat)
    ensures KeepLast(KeepLast(s, cap) + t, cap) == KeepLast(s + t, cap)
  {
    var u := s + t;
    if |s| > cap && t != [] {
      var k := s[|s| - cap..];
      assert k + t == u[|s| - cap..];
      assert (k + t)[|t|..] == u[|u| - cap..];
    }
  }

  /** The log after pushing each of `es` in turn, cutting it back to the
      last `cap` entries after every push that makes it longer. */
  function Pushed<T>(s: seq<T>, es: seq<T>, cap: nat): seq<T>
    decreases |es|
  {
    if es == [] then s else Pushed(KeepLast(s + [es[0]], cap), es[1..], cap)
  }

  /** Pushing entries one at a time with the cap leaves the last `cap` entries
      of the whole history, in the order they were pushed. */
  lemma {:induction false} PushedIsRecent<T>(s: seq<T>, es: seq<T>, cap: nat)
    requires es != []
    ensures Pushed(s, es, cap) == KeepLast(s + es, cap)
    decreases |es|
  {
    var e, rest := es[0], es[1..];
    var k := KeepLast(s + [e], cap);
    assert Pushed(s, es, cap) == Pushed(k, rest, cap);
    assert [e] + rest == es;
    if rest != [] {
      PushedIsRecent(k, rest, cap);
      PushOne(s, e, rest, cap);
    } else {
      assert Pushed(k, rest, cap) == k;
    }
  }

  lemma PushOne<T>(s: seq<T>, e: T, rest: seq<T>, cap: nat)
    ensures KeepLast(KeepLast(s + [e], cap) + rest, cap) == KeepLast(s + ([e] + rest), cap)
  {
    var u := s + [e];
    KeepLastAppend(u, rest, cap);
    var t := [e] + rest;
    assert u + rest == s + t;
  }

  /** Two runs of pushes are one run of all their entries. */
  lemma {:induction false} PushedConcat<T>(s: seq<T>, a: seq<T>, b: seq<T>, cap: nat)
    ensures Pushed(Pushed(s, a, cap), b, cap) == Pushed(s, a + b, cap)
    decreases |a|
  {
    if a != [] {
      var k := KeepLast(s + [a[0]], cap);
      assert (a + b)[0] == a[0] && (a + b)[1..] == a[1..] + b;
      assert Pushed(s, a + b, cap) == Pushed(k, a[1..] + b, cap);
      assert Pushed(s, a, cap) == Pushed(k, a[1..], cap);
      PushedConcat(k, a[1..], b, cap);
    } else {
      assert a + b == b;
    }
  }

  /** No element occurs twice. */
  ghost predicate Distinct<T>(s: seq<T>)
  {
    forall i, j :: 0 <= i < j < |s| ==> s[i] != s[j]
  }

  /** A list has no repeated element exactly when every element occurs in its
      multiset at most once. */
  lemma {:induction false} DistinctCounts<T>(s: seq<T>)
    ensures Distinct(s) <==> forall x :: multiset(s)[x] <= 1
  {
    if s != [] {
      var t := s[1..];
      assert s == [s[0]] + t;
      DistinctCounts(t);
      if Distinct(s) {
        assert Distinct(t) by {
          forall i, j | 0 <= i < j < |t| ensures t[i] != t[j] {
            assert t[i] == s[i + 1] && t[j] == s[j + 1];
          }
        }
        assert s[0] !in t by {
          forall k | 0 <= k < |t| ensures t[k] != s[0] {
            assert t[k] == s[k + 1];
          }
        }
      }
      if forall x :: multiset(s)[x] <= 1 {
        assert multiset(s)[s[0]] <= 1;
        assert forall x :: multiset(t)[x] <= multiset(s)[x];
        assert s[0] !in multiset(t);
        forall i, j | 0 <= i < j < |s| ensures s[i] != s[j] {
          assert s[j] == t[j - 1];
          if i == 0 {
            assert s[j] in t;
          } else {
            assert s[i] == t[i - 1];
          }
        }
      }
    }
  }

  /** `[...arr].reverse()` */
  function Reverse<T>(s: seq<T>): (r: seq<T>)
    ensures |r| == |s|
    ensures forall i :: 0 <= i < |s| ==> r[i] == s[|s| - 1 - i]
  {
    if s == [] then [] else Reverse(s[1..]) + [s[0]]
  }

  /** Reversing twice gives the original order back. */
  lemma ReverseReverse<T>(s: seq<T>)
    ensures Reverse(Reverse(s)) == s
  {
    var r := Reverse(Reverse(s));
    assert forall i :: 0 <= i < |s| ==> r[i] == s[i];
  }

  /** The decimal text of an integer, as a template literal renders it. */
  function IntText(n: int): (r: string)
    ensures |r| >= 1
    ensures n < 0 <==> r[0] == '-'
    decreases if n < 0 then 1 - n else n
  {
    if n < 0 then "-" + IntText(-n)
    else if n < 10 then [('0' as int + n) as char]
    else IntText(n / 10) + [('0' as int + n % 10) as char]
  }

  predicate IsDigit(c: char) { '0' <= c <= '9' }

  predicate AllDigits(s: string) { forall i :: 0 <= i < |s| ==> IsDigit(s[i]) }

  /** The number a string of decimal digits denotes. */
  function DigitsValue(s: string): nat
    requires AllDigits(s)
  {
    if s == [] then 0
    else DigitsValue(s[..|s| - 1]) * 10 + (s[|s| - 1] as int - '0' as int)
  }

  /** The text of a non-negative integer is all digits, with no leading
      zero, and denotes that integer. */
  lemma {:induction false} IntTextDigits(n: nat)
    ensures AllDigits(IntText(n))
    ensures IntText(n)[0] == '0' ==> n == 0
    ensures DigitsValue(IntText(n)) == n
    decreases n
  {
    if n >= 10 {
      var init, last := IntText(n / 10), ('0' as int + n % 10) as char;
      IntTextDigits(n / 10);
      assert IntText(n) == init + [last];
      assert (init + [last])[..|init|] == init;
    } else {
      assert DigitsValue(IntText(n)[..0]) == 0;
    }
  }
}
