/** Segment file names: zero-padded numbers sort as strings the way they sort as numbers.

The rest of the model names a segment by its number; this is why it may.
*/
module Names {
  import opened Ordering

  const WIDTH := 20

  function Pow10(w: nat): nat {
    if w == 0 then 1 else 10 * Pow10(w - 1)
  }

  /** The last `w` decimal digits of `n`. */
  function LastDigits(n: nat, w: nat): (s: string)
    ensures |s| == w
  {
    if w == 0 then "" else LastDigits(n / 10, w - 1) + [('0' as int + n % 10) as char]
  }

  /** The name of the segment with sequence number `n`. */
  function SegmentName(n: nat): string {
    LastDigits(n, WIDTH) + ".seg"
  }

  lemma {:induction false} LessExtends(a: string, b: string, x: string, y: string)
    requires |a| == |b| && StringLess(a, b)
    ensures StringLess(a + x, b + y)
  {
    assert a != [] && b != [];
    assert (a + x)[1..] == a[1..] + x && (b + y)[1..] == b[1..] + y;
    if a[0] == b[0] {
      LessExtends(a[1..], b[1..], x, y);
    }
  }

  lemma {:induction false} SamePrefix(a: string, x: string, y: string)
    requires StringLess(x, y)
    ensures StringLess(a + x, a + y)
  {
    if a == [] {
      assert a + x == x && a + y == y;
    } else {
      SamePrefix(a[1..], x, y);
      assert (a + x)[1..] == a[1..] + x && (a + y)[1..] == a[1..] + y;
    }
  }

  lemma {:induction false} LastDigitsInOrder(a: nat, b: nat, w: nat)
    requires a < b < Pow10(w)
    ensures StringLess(LastDigits(a, w), LastDigits(b, w))
  {
    if w > 0 {
      var x, y := [('0' as int + a % 10) as char], [('0' as int + b % 10) as char];
      if a / 10 < b / 10 {
        LastDigitsInOrder(a / 10, b / 10, w - 1);
        LessExtends(LastDigits(a / 10, w - 1), LastDigits(b / 10, w - 1), x, y);
      } else {
        assert a / 10 == b / 10;
        SamePrefix(LastDigits(a / 10, w - 1), x, y);
      }
    }
  }

  /** Every 64-bit number has its own name, and `sort.Strings` on the names is the numeric order. */
  lemma NamesSortByNumber(a: nat, b: nat)
    requires a < 0x1_0000_0000_0000_0000 && b < 0x1_0000_0000_0000_0000
    ensures StringLess(SegmentName(a), SegmentName(b)) <==> a < b
    ensures SegmentName(a) == SegmentName(b) <==> a == b
  {
    assert Pow10(20) == 100 * 100 * 100 * Pow10(14) == 100000000000000000000 by {
      assert Pow10(14) == 10000 * Pow10(10);
      assert Pow10(10) == 10000 * Pow10(6);
    }
    StringLessTotal(SegmentName(a), SegmentName(b));
    StringLessTotal(SegmentName(a), SegmentName(a));
    if a < b {
      LastDigitsInOrder(a, b, WIDTH);
      LessExtends(LastDigits(a, WIDTH), LastDigits(b, WIDTH), ".seg", ".seg");
    } else if b < a {
      LastDigitsInOrder(b, a, WIDTH);
      LessExtends(LastDigits(b, WIDTH), LastDigits(a, WIDTH), ".seg", ".seg");
    }
  }
}
