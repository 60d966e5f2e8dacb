/** The order of strings by their characters, and sets of strings listed in that order, as an
    ordered map iterates its keys. */
module StringOrder {
  predicate Before(a: string, b: string) {
    b != [] && (a == [] || a[0] < b[0] || (a[0] == b[0] && Before(a[1..], b[1..])))
  }

  predicate AtMost(a: string, b: string) {
    a == b || Before(a, b)
  }

  lemma {:induction false} Trichotomy(a: string, b: string)
    ensures !Before(a, a)
    ensures !(Before(a, b) && Before(b, a))
    ensures a == b || Before(a, b) || Before(b, a)
    decreases |a|
  {
    if a != [] {
      Trichotomy(a[1..], if b == [] then [] else b[1..]);
      if b != [] && a[0] == b[0] && a[1..] == b[1..] {
        assert a == [a[0]] + a[1..] == [b[0]] + b[1..] == b;
      }
    }
  }

  lemma {:induction false} Transitive(a: string, b: string, c: string)
    requires Before(a, b) && Before(b, c)
    ensures Before(a, c)
    decreases |a|
  {
    if a != [] && a[0] == b[0] == c[0] {
      Transitive(a[1..], b[1..], c[1..]);
    }
  }

  /** The strings agree before i, and there the first has ended or has the smaller character. */
  predicate DiffersBelow(a: string, b: string, i: nat) {
    i <= |a| && i < |b| && a[..i] == b[..i] && (i == |a| || a[i] < b[i])
  }

  /** One string is before another if and only if it is a proper part of it from the start, or has
      the smaller character where they first differ. */
  lemma {:induction false} BeforeMeans(a: string, b: string)
    ensures Before(a, b) <==> exists i :: DiffersBelow(a, b, i)
    decreases |a|
  {
    if Before(a, b) {
      if a == [] || a[0] < b[0] {
        assert DiffersBelow(a, b, 0);
      } else {
        BeforeMeans(a[1..], b[1..]);
        var i: nat :| DiffersBelow(a[1..], b[1..], i);
        assert a[..i + 1] == [a[0]] + a[1..][..i] && b[..i + 1] == [b[0]] + b[1..][..i];
        assert DiffersBelow(a, b, i + 1);
      }
    }
    if i: nat :| DiffersBelow(a, b, i) {
      if i > 0 {
        assert a[0] == a[..i][0] == b[..i][0] == b[0];
        assert a[..i][1..] == a[1..][..i - 1] && b[..i][1..] == b[1..][..i - 1];
        assert DiffersBelow(a[1..], b[1..], i - 1);
        BeforeMeans(a[1..], b[1..]);
      }
    }
  }

  ghost predicate Ascending(s: seq<string>) {
    forall i, j | 0 <= i < j < |s| :: Before(s[i], s[j])
  }

  /** The least string of a set. */
  method Least(s: set<string>) returns (m: string)
    requires s != {}
    ensures m in s && forall x | x in s :: AtMost(m, x)
  {
    m :| m in s;
    var left := s - {m};
    while left != {}
      invariant left <= s && m in s
      invariant forall x | x in s && x !in left :: AtMost(m, x)
      decreases |left|
    {
      var x :| x in left;
      ghost var was := m;
      Trichotomy(x, m);
      if Before(x, m) {
        forall y | y in s && y !in left ensures AtMost(x, y) {
          if m != y {
            Transitive(x, m, y);
          }
        }
        m := x;
      }
      left := left - {x};
    }
  }

  /** The strings of a set in ascending order. */
  method Sorted(s: set<string>) returns (r: seq<string>)
    ensures Ascending(r) && forall x :: x in r <==> x in s
  {
    r := [];
    var left := s;
    while left != {}
      invariant left <= s && Ascending(r)
      invariant forall x :: x in r <==> x in s && x !in left
      invariant forall x, y | x in r && y in left :: Before(x, y)
      decreases |left|
    {
      var m := Least(left);
      forall y | y in left - {m} ensures Before(m, y) {
        assert AtMost(m, y);
      }
      r, left := r + [m], left - {m};
    }
  }
}
