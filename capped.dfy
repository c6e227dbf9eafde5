/** The "push, then shift once if too long" pattern shared by the undo
    stack and the error log: an array that keeps at most `cap` of the
    newest elements, oldest first. */
module Capped {

  /** The last `cap` elements of `s` (all of them when there are fewer). */
  function Newest<T>(s: seq<T>, cap: nat): (r: seq<T>)
    ensures |r| == if |s| <= cap then |s| else cap
  {
    if |s| <= cap then s else s[|s| - cap..]
  }

  /** `arr.push(x); if (arr.length > cap) arr.shift();` */
  function Push<T>(s: seq<T>, x: T, cap: nat): (r: seq<T>)
    ensures |s| <= cap ==> r == Newest(s + [x], cap)
    ensures cap > 0 ==> r != [] && r[|r| - 1] == x
  {
    var pushed := s + [x];
    if |pushed| > cap then pushed[1..] else pushed
  }

  /** Pushing every element of `xs`, in order. */
  function PushAll<T>(s: seq<T>, xs: seq<T>, cap: nat): seq<T>
    decreases xs
  {
    if xs == [] then s else PushAll(Push(s, xs[0], cap), xs[1..], cap)
  }

  /** Trimming twice keeps what trimming once keeps. */
  lemma NewestAppend<T>(t: seq<T>, u: seq<T>, cap: nat)
    ensures Newest(Newest(t, cap) + u, cap) == Newest(t + u, cap)
  {
    if |t| > cap {
      var a := Newest(t, cap) + u;
      var b := t + u;
      assert |Newest(a, cap)| == |Newest(b, cap)|;
      forall i | 0 <= i < |Newest(a, cap)| ensures Newest(a, cap)[i] == Newest(b, cap)[i] {
        var j := |a| - |Newest(a, cap)| + i;
        if j < cap {
          assert a[j] == t[|t| - cap + j];
        } else {
          assert a[j] == u[j - cap];
        }
      }
    }
  }

  /** However many elements are pushed, exactly the newest `cap` of them
      (with what was there before) remain, in the order they came. */
  lemma {:induction false} PushAllNewest<T>(s: seq<T>, xs: seq<T>, cap: nat)
    requires |s| <= cap
    ensures PushAll(s, xs, cap) == Newest(s + xs, cap)
    decreases xs
  {
    if xs == [] {
      assert s + xs == s;
    } else {
      var x, rest := xs[0], xs[1..];
      var s' := Push(s, x, cap);
      calc {
        PushAll(s, xs, cap);
        PushAll(s', rest, cap);
        { PushAllNewest(s', rest, cap); }
        Newest(s' + rest, cap);
        { NewestAppend(s + [x], rest, cap); }
        Newest(s + [x] + rest, cap);
        { assert s + [x] + rest == s + xs by { assert xs == [x] + rest; } }
        Newest(s + xs, cap);
      }
    }
  }
}
