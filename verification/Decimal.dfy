/** Numbers in decimal, padded with zeros to a width, as Rust's `{n:0w}` writes them. */
module Decimal {
  function Digit(d: nat): (c: char)
    requires d < 10
    ensures IsDigit(c)
  {
    ('0' as int + d) as char
  }

  predicate IsDigit(c: char) {
    '0' <= c <= '9'
  }

  function Pow10(w: nat): nat {
    if w == 0 then 1 else 10 * Pow10(w - 1)
  }

  function Pad(n: nat, width: nat): (s: string)
    ensures forall c | c in s :: IsDigit(c)
    ensures |s| >= width && |s| >= 1
    decreases n + width
  {
    if n < 10 && width <= 1 then [Digit(n)]
    else Pad(n / 10, if width > 0 then width - 1 else 0) + [Digit(n % 10)]
  }

  /** A number of at most `width` digits takes exactly the width; a longer one more. */
  lemma {:induction false} PadWidth(n: nat, width: nat)
    requires width > 0
    ensures |Pad(n, width)| == width <==> n < Pow10(width)
    decreases n + width
  {
    if n < 10 && width <= 1 {
      assert Pow10(1) == 10 * Pow10(0);
    } else if width > 1 {
      PadWidth(n / 10, width - 1);
    } else {
      assert Pow10(1) == 10 * Pow10(0);
      assert |Pad(n / 10, 0)| >= 1;
    }
  }

  /** Padded numbers are equal only when the numbers are. */
  lemma {:induction false} PadInjective(a: nat, b: nat, width: nat)
    requires Pad(a, width) == Pad(b, width)
    ensures a == b
    decreases a + b + width
  {
    var less := if width > 0 then width - 1 else 0;
    LastDigit(a, width);
    LastDigit(b, width);
    if |Pad(a, width)| > 1 {
      Front(a, width);
      Front(b, width);
      PadInjective(a / 10, b / 10, less);
    } else {
      Short(a, width);
      Short(b, width);
    }
  }

  lemma LastDigit(n: nat, width: nat)
    ensures Pad(n, width)[|Pad(n, width)| - 1] == Digit(n % 10)
  {
  }

  lemma Front(n: nat, width: nat)
    requires |Pad(n, width)| > 1
    ensures n >= 10 || width > 1
    ensures Pad(n, width)[..|Pad(n, width)| - 1] == Pad(n / 10, if width > 0 then width - 1 else 0)
  {
  }

  lemma Short(n: nat, width: nat)
    requires |Pad(n, width)| == 1
    ensures n < 10
  {
  }

  /** One more digit behind a number. */
  lemma OneDigit(a: nat, d: nat, width: nat)
    requires d < 10 && width > 0
    ensures Pad(10 * a + d, width + 1) == Pad(a, width) + [Digit(d)]
  {
    assert (10 * a + d) / 10 == a && (10 * a + d) % 10 == d;
  }

  /** Two more digits behind a number. */
  lemma PadPair(a: nat, b: nat, width: nat)
    requires b < 100 && width > 0
    ensures Pad(100 * a + b, width + 2) == Pad(a, width) + Pad(b, 2)
  {
    OneDigit(10 * a + b / 10, b % 10, width + 1);
    OneDigit(a, b / 10, width);
    OneDigit(b / 10, b % 10, 1);
    assert 10 * (10 * a + b / 10) + b % 10 == 100 * a + b;
    assert Pad(b / 10, 1) == [Digit(b / 10)];
  }

  /** The order of strings. */
  predicate Before(a: string, b: string) {
    if b == [] then false
    else if a == [] then true
    else a[0] < b[0] || (a[0] == b[0] && Before(a[1..], b[1..]))
  }

  /** They are the same up to `k`, and there `a` ends first or has the lesser character. */
  ghost predicate PartsAt(a: string, b: string, k: nat) {
    && k <= |a| && k < |b| && a[..k] == b[..k]
    && (k < |a| ==> a[k] < b[k])
  }

  lemma PartsOn(a: string, b: string, k: nat)
    requires a != [] && b != [] && a[0] == b[0]
    ensures PartsAt(a[1..], b[1..], k) <==> PartsAt(a, b, k + 1)
  {
    if k + 1 <= |a| && k + 1 <= |b| {
      assert a[..k + 1] == [a[0]] + a[1..][..k] && b[..k + 1] == [b[0]] + b[1..][..k];
      assert a[..k + 1][1..] == a[1..][..k] && b[..k + 1][1..] == b[1..][..k];
    }
  }

  /** One string is before another exactly where they part so. */
  lemma {:induction false} BeforeExactly(a: string, b: string)
    ensures Before(a, b) <==> exists k: nat :: PartsAt(a, b, k)
  {
    assert PartsAt(a, b, 0) <==> b != [] && (a != [] ==> a[0] < b[0]);
    if a != [] && b != [] {
      if a[0] == b[0] {
        BeforeExactly(a[1..], b[1..]);
        forall k: nat ensures PartsAt(a[1..], b[1..], k) <==> PartsAt(a, b, k + 1) {
          PartsOn(a, b, k);
        }
        forall k: nat | k > 0 && PartsAt(a, b, k) ensures PartsAt(a[1..], b[1..], k - 1) {
          PartsOn(a, b, k - 1);
        }
      } else {
        forall k: nat | k > 0 ensures !PartsAt(a, b, k) {
          assert k <= |a| && k <= |b| ==> a[..k][0] != b[..k][0];
        }
      }
    }
  }

  lemma {:induction false} SameStart(p: string, a: string, b: string)
    ensures Before(p + a, p + b) == Before(a, b)
  {
    if p == [] {
      assert p + a == a && p + b == b;
    } else {
      SameStart(p[1..], a, b);
      assert (p + a)[1..] == p[1..] + a && (p + b)[1..] == p[1..] + b;
    }
  }

  lemma {:induction false} StartDecides(a: string, b: string, x: string, y: string)
    requires |a| == |b| && Before(a, b)
    ensures Before(a + x, b + y) && !Before(b + y, a + x)
  {
    if a[0] == b[0] {
      StartDecides(a[1..], b[1..], x, y);
      assert (a + x)[1..] == a[1..] + x && (b + y)[1..] == b[1..] + y;
    }
  }

  /** Numbers of at most `width` digits sort as their padded strings do. */
  lemma {:induction false} PadSorts(a: nat, b: nat, width: nat)
    requires a < b < Pow10(width) && width > 0
    ensures |Pad(a, width)| == |Pad(b, width)| == width
    ensures Before(Pad(a, width), Pad(b, width))
  {
    PadWidth(a, width);
    PadWidth(b, width);
    if width > 1 {
      var p, q := Pad(a / 10, width - 1), Pad(b / 10, width - 1);
      if a / 10 < b / 10 {
        PadSorts(a / 10, b / 10, width - 1);
        StartDecides(p, q, [Digit(a % 10)], [Digit(b % 10)]);
      } else {
        SameStart(p, [Digit(a % 10)], [Digit(b % 10)]);
      }
    } else {
      assert Pow10(1) == 10 * Pow10(0);
    }
  }
}
