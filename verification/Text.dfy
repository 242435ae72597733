/** Byte order on text, as SQLite's default collation and Go's string comparison use it. */
module Text {

  predicate Less(a: string, b: string) {
    && |b| > 0
    && (|a| == 0 || a[0] < b[0] || (a[0] == b[0] && Less(a[1..], b[1..])))
  }

  /** Lower case, for ASCII letters only. */
  function Lower(s: string): string {
    seq(|s|, i requires 0 <= i < |s| => if 'A' <= s[i] <= 'Z' then (s[i] as int + 32) as char else s[i])
  }

  /** Only the letters from A to Z change, each to the one 32 places on. */
  lemma LowerExactly(s: string, i: nat)
    requires i < |s|
    ensures |Lower(s)| == |s|
    ensures Lower(s)[i] as int == s[i] as int + if 65 <= s[i] as int && s[i] as int <= 90 then 32 else 0
  {
  }

  /** Shorter texts before what they begin, and else the first difference decides. */
  lemma {:induction false} LessExactly(p: string, a: string, b: string)
    ensures a != "" ==> Less(p, p + a)
    ensures a != "" && b != "" && a[0] as int < b[0] as int ==> Less(p + a, p + b) && !Less(p + b, p + a)
  {
    LessSharedHead(p, "", a);
    LessSharedHead(p, a, b);
    LessSharedHead(p, b, a);
    assert p + "" == p;
  }

  predicate AtMost(a: string, b: string) {
    !Less(b, a)
  }

  predicate Ascending(s: seq<string>) {
    forall i, j :: 0 <= i < j < |s| ==> Less(s[i], s[j])
  }

  lemma {:induction false} LessTotal(a: string, b: string)
    ensures Less(a, b) || a == b || Less(b, a)
    ensures !(Less(a, b) && Less(b, a))
    ensures !Less(a, a)
  {
    if |a| > 0 && |b| > 0 {
      LessTotal(a[1..], b[1..]);
      LessTotal(a[1..], a[1..]);
      if a[1..] == b[1..] && a[0] == b[0] {
        assert a == [a[0]] + a[1..] == [b[0]] + b[1..] == b;
      }
    } else if |a| > 0 {
      LessTotal(a[1..], a[1..]);
    }
  }

  lemma {:induction false} LessTransitive(a: string, b: string, c: string)
    requires Less(a, b) && Less(b, c)
    ensures Less(a, c)
  {
    if |a| > 0 && a[0] == b[0] == c[0] {
      LessTransitive(a[1..], b[1..], c[1..]);
    }
  }

  /** Equal-length heads that differ decide the comparison, whatever follows. */
  lemma {:induction false} LessByHead(a: string, b: string, x: string, y: string)
    requires |a| == |b| && Less(a, b)
    ensures Less(a + x, b + y)
  {
    assert (a + x)[0] == a[0] && (b + y)[0] == b[0];
    if a[0] == b[0] {
      LessByHead(a[1..], b[1..], x, y);
      assert (a + x)[1..] == a[1..] + x && (b + y)[1..] == b[1..] + y;
    }
  }

  /** A shared head never matters. */
  lemma {:induction false} LessSharedHead(p: string, x: string, y: string)
    ensures Less(p + x, p + y) == Less(x, y)
  {
    if p == [] {
      assert p + x == x && p + y == y;
    } else {
      assert (p + x)[0] == p[0] == (p + y)[0];
      assert (p + x)[1..] == p[1..] + x && (p + y)[1..] == p[1..] + y;
      LessSharedHead(p[1..], x, y);
    }
  }

  lemma {:induction false} LeastExists(s: set<string>)
    requires s != {}
    ensures exists x :: x in s && forall y :: y in s ==> AtMost(x, y)
  {
    hide Less;
    var x :| x in s;
    if s == {x} {
      LessTotal(x, x);
      assert x in s && forall y :: y in s ==> AtMost(x, y);
    } else {
      LeastExists(s - {x});
      var m :| m in s - {x} && forall y :: y in s - {x} ==> AtMost(m, y);
      LessTotal(x, m);
      LessTotal(x, x);
      if Less(x, m) {
        forall y | y in s ensures AtMost(x, y) {
          if y != x {
            assert y in s - {x};
            if Less(y, x) { LessTransitive(y, x, m); }
          }
        }
      } else {
        assert forall y :: y in s ==> AtMost(m, y);
      }
    }
  }

  predicate First(x: string, s: set<string>) {
    x in s && forall y :: y in s ==> AtMost(x, y)
  }

  /** The first element in byte order: what sorting and taking index 0 gives. */
  function Least(s: set<string>): (x: string)
    requires s != {}
    ensures x in s && forall y :: y in s ==> AtMost(x, y)
  {
    assert exists x :: First(x, s) by {
      LeastExists(s);
      var x :| x in s && forall y :: y in s ==> AtMost(x, y);
      assert First(x, s);
    }
    assert forall a, b | First(a, s) && First(b, s) :: a == b by {
      forall a, b | First(a, s) && First(b, s) ensures a == b {
        LessTotal(a, b);
      }
    }
    var x :| First(x, s);
    x
  }

  /** The ascending listing of a set: what collecting map keys and sorting them gives. */
  function Listing(s: set<string>): (r: seq<string>)
    ensures Ascending(r)
    ensures forall x :: x in r <==> x in s
    ensures |r| == |s|
  {
    if s == {} then []
    else
      var x := Least(s);
      var rest := Listing(s - {x});
      assert forall y | y in rest :: Less(x, y) by {
        forall y | y in rest ensures Less(x, y) { LessTotal(x, y); }
      }
      [x] + rest
  }

  /** There is only one ascending listing of a set, so any correct sort returns it. */
  lemma {:induction false} ListingUnique(r: seq<string>, s: set<string>)
    requires Ascending(r)
    requires forall x :: x in r <==> x in s
    ensures r == Listing(s)
  {
    if r == [] {
      assert forall x :: x in s ==> x in r;
      assert s == {};
    } else {
      assert r[0] in s;
      var least := Least(s);
      HeadIsLeast(r, least);
      AscendingTail(r);
      assert r == [r[0]] + r[1..];
      assert forall x :: x in r[1..] <==> x in s - {least};
      ListingUnique(r[1..], s - {least});
    }
  }

  lemma AscendingTail(r: seq<string>)
    requires r != [] && Ascending(r)
    ensures Ascending(r[1..]) && r[0] !in r[1..]
  {
    forall i | 1 <= i < |r| ensures r[i] != r[0] {
      assert Less(r[0], r[i]);
      LessTotal(r[0], r[0]);
    }
  }

  lemma HeadIsLeast(r: seq<string>, least: string)
    requires Ascending(r) && least in r
    requires AtMost(least, r[0])
    ensures r[0] == least
  {
    LessTotal(r[0], least);
  }
}
