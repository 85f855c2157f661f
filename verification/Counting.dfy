/** Sizes of images, unions and lists without repetition. */
module Counting {

  ghost function Image<A, B>(f: A -> B, x: set<A>): set<B> {
    set a | a in x :: f(a)
  }

  ghost function Image2<A, B, C>(f: (A, B) -> C, x: set<A>, y: set<B>): set<C> {
    set a, b | a in x && b in y :: f(a, b)
  }

  ghost predicate Injective<A(!new), B>(f: A -> B, x: set<A>) {
    forall a, a' | a in x && a' in x && f(a) == f(a') :: a == a'
  }

  ghost predicate Injective2<A(!new), B(!new), C>(f: (A, B) -> C, x: set<A>, y: set<B>) {
    forall a, a', b, b' | a in x && a' in x && b in y && b' in y && f(a, b) == f(a', b') :: a == a' && b == b'
  }

  lemma {:induction false} UnionSize<T>(x: set<T>, y: set<T>)
    ensures |x + y| <= |x| + |y|
    ensures x !! y ==> |x + y| == |x| + |y|
  {
    assert x + y == x + (y - x);
    assert |x + (y - x)| == |x| + |y - x|;
    assert y - x <= y;
    SubsetSize(y - x, y);
    if x !! y {
      assert y - x == y;
    }
  }

  lemma {:induction false} SubsetSize<T>(x: set<T>, y: set<T>)
    requires x <= y
    ensures |x| <= |y|
  {
    assert y == x + (y - x);
    assert |x + (y - x)| == |x| + |y - x|;
  }

  lemma {:induction false} ImageSize<A(!new), B>(f: A -> B, x: set<A>)
    ensures |Image(f, x)| <= |x|
    ensures Injective(f, x) ==> |Image(f, x)| == |x|
    decreases |x|
  {
    if x == {} {
      assert Image(f, x) == {};
    } else {
      var a :| a in x;
      var rest := x - {a};
      ImageSize(f, rest);
      assert Image(f, x) == Image(f, rest) + {f(a)};
      if Injective(f, x) {
        assert f(a) !in Image(f, rest);
      }
    }
  }

  /** Taking one element out of x takes a row of at most |y| images out. */
  lemma {:induction false} Image2Row<A(!new), B(!new), C>(f: (A, B) -> C, x: set<A>, y: set<B>, a: A)
    requires a in x
    ensures |Image2(f, x, y)| <= |Image2(f, x - {a}, y)| + |y|
    ensures Injective2(f, x, y) ==> |Image2(f, x, y)| == |Image2(f, x - {a}, y)| + |y|
  {
    var rest := Image2(f, x - {a}, y);
    var row := Image(b => f(a, b), y);
    ImageSize(b => f(a, b), y);
    assert Image2(f, x, y) == rest + row;
    UnionSize(rest, row);
    if Injective2(f, x, y) {
      assert Injective(b => f(a, b), y);
      assert rest !! row;
    }
  }

  lemma {:induction false} OneMore(n: nat, m: nat)
    requires n > 0
    ensures n * m == (n - 1) * m + m
  {
  }

  lemma {:induction false} Image2Size<A(!new), B(!new), C>(f: (A, B) -> C, x: set<A>, y: set<B>)
    ensures |Image2(f, x, y)| <= |x| * |y|
    ensures Injective2(f, x, y) ==> |Image2(f, x, y)| == |x| * |y|
    decreases |x|
  {
    if x == {} {
      assert Image2(f, x, y) == {};
    } else {
      var a :| a in x;
      Image2Row(f, x, y, a);
      Image2Size(f, x - {a}, y);
      OneMore(|x|, |y|);
    }
  }

  ghost predicate NoRepeats<T>(s: seq<T>) {
    forall i, j | 0 <= i < j < |s| :: s[i] != s[j]
  }

  ghost function Members<T>(s: seq<T>): set<T> {
    set x | x in s
  }

  lemma {:induction false} MembersSize<T>(s: seq<T>)
    ensures |Members(s)| <= |s|
    ensures NoRepeats(s) ==> |Members(s)| == |s|
  {
    if |s| == 0 {
    } else {
      var front, last := s[..|s| - 1], s[|s| - 1];
      MembersSize(front);
      assert Members(s) == Members(front) + {last};
      if NoRepeats(s) {
        assert last !in front;
      }
    }
  }

  lemma {:induction false} Enumerate<T>(x: set<T>) returns (s: seq<T>)
    ensures NoRepeats(s) && Members(s) == x && |s| == |x|
    decreases |x|
  {
    if x == {} {
      s := [];
    } else {
      var a :| a in x;
      var rest := Enumerate(x - {a});
      s := rest + [a];
      assert Members(s) == Members(rest) + {a};
    }
  }

  lemma {:induction false} CountOnce<T>(s: seq<T>, x: T)
    requires NoRepeats(s)
    ensures multiset(s)[x] == if x in s then 1 else 0
  {
    if |s| == 0 {
    } else {
      var front, last := s[..|s| - 1], s[|s| - 1];
      CountOnce(front, x);
      assert s == front + [last];
    }
  }

  lemma {:induction false} SameElements<T(!new)>(a: seq<T>, b: seq<T>)
    requires NoRepeats(a) && NoRepeats(b) && Members(a) == Members(b)
    ensures multiset(a) == multiset(b)
  {
    forall x ensures multiset(a)[x] == multiset(b)[x] {
      CountOnce(a, x);
      CountOnce(b, x);
      assert x in a <==> x in Members(a);
      assert x in b <==> x in Members(b);
    }
  }
}
