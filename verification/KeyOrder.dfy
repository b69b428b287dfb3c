/**
 * The order in which object storage lists keys: that of their bytes, which for ASCII are their
 * characters.
 */
module KeyOrder {
  import opened Text
  import opened Reconcile
  import ObjectKeys

  predicate Precedes(a: string, b: string) {
    b != "" && (a == "" || a[0] < b[0] || (a[0] == b[0] && Precedes(a[1..], b[1..])))
  }

  ghost predicate InKeyOrder(objects: seq<Object>) {
    forall i, j :: 0 <= i < j < |objects| ==> Precedes(objects[i].key, objects[j].key)
  }

  /** A page as the listing returns it, of exactly these two keys. */
  ghost predicate ListsBoth(page: seq<Object>, a: string, b: string) {
    && |page| == 2 && InKeyOrder(page)
    && ((page[0].key == a && page[1].key == b) || (page[0].key == b && page[1].key == a))
  }

  /** Of two different keys exactly one precedes the other, and none itself. */
  lemma {:induction false} OneOrder(a: string, b: string)
    ensures a == b ==> !Precedes(a, b)
    ensures a != b ==> (Precedes(a, b) <==> !Precedes(b, a))
  {
    if a != "" && b != "" && a[0] == b[0] {
      OneOrder(a[1..], b[1..]);
      assert a == [a[0]] + a[1..] && b == [b[0]] + b[1..];
    }
  }

  lemma OrderOfPair(page: seq<Object>, a: string, b: string)
    requires ListsBoth(page, a, b)
    ensures |page| == 2 && a != b && page[0].key != page[1].key
    ensures page[0].key == (if Precedes(a, b) then a else b) && page[1].key == (if Precedes(a, b) then b else a)
  {
    assert Precedes(page[0].key, page[1].key);
    OneOrder(a, b);
  }

  lemma {:induction false} SharedPrefix(p: string, a: string, b: string)
    ensures Precedes(p + a, p + b) <==> Precedes(a, b)
  {
    if p == "" {
      assert p + a == a && p + b == b;
    } else {
      SharedPrefix(p[1..], a, b);
      assert (p + a)[1..] == p[1..] + a && (p + b)[1..] == p[1..] + b;
    }
  }

  /** Parts that end at a separator decide, whatever follows. */
  lemma {:induction false} DecidedByPart(a: string, b: string, sep: char, x: string, y: string)
    requires a != b && sep !in a && sep !in b
    ensures Precedes(a + [sep] + x, b + [sep] + y) <==> Precedes(a + [sep], b + [sep])
  {
    var k, l := a + [sep] + x, b + [sep] + y;
    if a != "" && b != "" && a[0] == b[0] {
      assert a == [a[0]] + a[1..] && b == [b[0]] + b[1..];
      DecidedByPart(a[1..], b[1..], sep, x, y);
      assert k[1..] == a[1..] + [sep] + x && l[1..] == b[1..] + [sep] + y;
      assert (a + [sep])[1..] == a[1..] + [sep] && (b + [sep])[1..] == b[1..] + [sep];
    } else {
      assert k[0] == (a + [sep])[0] && l[0] == (b + [sep])[0];
      assert a != "" ==> k[0] == a[0] && a[0] in a;
      assert b != "" ==> l[0] == b[0] && b[0] in b;
    }
  }

  // ---- Successive revisions -------------------------------------------------------------------

  /** Strings of one length, unlike each other, are ordered alike whatever follows. */
  lemma {:induction false} DecidedByDigits(a: string, b: string, x: string, y: string)
    requires |a| == |b| && Precedes(a, b)
    ensures Precedes(a + x, b + y)
  {
    assert (a + x)[0] == a[0] && (b + y)[0] == b[0];
    if a[0] == b[0] {
      DecidedByDigits(a[1..], b[1..], x, y);
      assert (a + x)[1..] == a[1..] + x && (b + y)[1..] == b[1..] + y;
    }
  }

  /** The next number has as many digits and sorts behind, or one more and starts over with a 1. */
  lemma {:induction false} NextNumber(n: nat)
    ensures var a, b := ObjectKeys.Decimal(n), ObjectKeys.Decimal(n + 1);
            && a != "" && b != ""
            && (if |a| == |b| then Precedes(a, b) else a[0] == '9' && b[0] == '1')
  {
    var q, d := n / 10, n % 10;
    var a, b := ObjectKeys.Decimal(n), ObjectKeys.Decimal(n + 1);
    if d < 9 {
      assert (n + 1) / 10 == q && (n + 1) % 10 == d + 1;
      var p := if n < 10 then "" else ObjectKeys.Decimal(q);
      assert a == p + [ObjectKeys.Digit(d)] && b == p + [ObjectKeys.Digit(d + 1)];
      SharedPrefix(p, [ObjectKeys.Digit(d)], [ObjectKeys.Digit(d + 1)]);
    } else {
      assert (n + 1) / 10 == q + 1 && (n + 1) % 10 == 0;
      assert b == ObjectKeys.Decimal(q + 1) + "0";
      if n >= 10 {
        NextNumber(q);
        assert a == ObjectKeys.Decimal(q) + "9";
        if |a| == |b| {
          DecidedByDigits(ObjectKeys.Decimal(q), ObjectKeys.Decimal(q + 1), "9", "0");
        }
      } else {
        assert ObjectKeys.Decimal(1) == "1";
      }
    }
  }

  /** A revision's folder precedes the next one's exactly when the next has no more digits. */
  lemma NextRevision(n: nat, x: string, y: string)
    ensures Precedes(ObjectKeys.Decimal(n) + x, ObjectKeys.Decimal(n + 1) + y)
       <==> |ObjectKeys.Decimal(n)| == |ObjectKeys.Decimal(n + 1)|
  {
    NextNumber(n);
    var a, b := ObjectKeys.Decimal(n), ObjectKeys.Decimal(n + 1);
    assert (a + x)[0] == a[0] && (b + y)[0] == b[0];
    if |a| == |b| {
      DecidedByDigits(a, b, x, y);
    }
  }
}
