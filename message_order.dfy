/**
 * The order of a conversation's messages: Collections.sort with a comparator
 * that returns -a.date.compareTo(b.date), so most recent date string first.
 * Collections.sort is a stable library sort; its contract is given here as a
 * stable insertion sort, with its three properties proved (sorted, a
 * permutation, stable) and shown to determine the result.
 */
module MessageOrder {
  import opened JavaLang
  import opened MessageRecords

  /** The comparator of the sort: negative when a goes before b. */
  function CompareByDateDesc(a: MessageRecord, b: MessageRecord): int
  {
    -CompareTo(a.date, b.date)
  }

  /** a may stand before b once sorted: the comparator does not put b first. */
  predicate InOrder(a: MessageRecord, b: MessageRecord)
  {
    CompareByDateDesc(a, b) <= 0
  }

  predicate SortedByDateDesc(s: seq<MessageRecord>)
  {
    forall i :: 0 < i < |s| ==> InOrder(s[i - 1], s[i])
  }

  /** The records of s dated d, in their order in s. */
  function WithDate(s: seq<MessageRecord>, d: string): seq<MessageRecord>
  {
    if s == [] then [] else (if s[0].date == d then [s[0]] else []) + WithDate(s[1..], d)
  }

  /** x placed before the first record of t that it may precede. */
  function Insert(x: MessageRecord, t: seq<MessageRecord>): seq<MessageRecord>
  {
    if t == [] || InOrder(x, t[0]) then [x] + t else [t[0]] + Insert(x, t[1..])
  }

  /** The list after Collections.sort. */
  function SortByDateDesc(s: seq<MessageRecord>): seq<MessageRecord>
  {
    if s == [] then [] else Insert(s[0], SortByDateDesc(s[1..]))
  }

  lemma {:induction false} InsertSorted(x: MessageRecord, t: seq<MessageRecord>)
    requires SortedByDateDesc(t)
    ensures SortedByDateDesc(Insert(x, t))
    ensures Insert(x, t)[0] == x || (t != [] && Insert(x, t)[0] == t[0])
  {
    if t != [] && !InOrder(x, t[0]) {
      var rest := Insert(x, t[1..]);
      assert SortedByDateDesc(t[1..]) by {
        forall i | 0 < i < |t[1..]| ensures InOrder(t[1..][i - 1], t[1..][i]) {
          assert t[1..][i - 1] == t[i] && t[1..][i] == t[i + 1];
        }
      }
      InsertSorted(x, t[1..]);
      CompareToAntisymmetric(x.date, t[0].date);
      assert InOrder(t[0], rest[0]);
      var r := [t[0]] + rest;
      forall i | 0 < i < |r| ensures InOrder(r[i - 1], r[i]) {
        if i > 1 {
          assert r[i - 1] == rest[i - 2] && r[i] == rest[i - 1];
        }
      }
    }
  }

  lemma {:induction false} InsertMultiset(x: MessageRecord, t: seq<MessageRecord>)
    ensures multiset(Insert(x, t)) == multiset{x} + multiset(t)
  {
    if t != [] && !InOrder(x, t[0]) {
      InsertMultiset(x, t[1..]);
      assert t == [t[0]] + t[1..];
    }
  }

  lemma {:induction false} WithDateAppend(a: seq<MessageRecord>, b: seq<MessageRecord>, d: string)
    ensures WithDate(a + b, d) == WithDate(a, d) + WithDate(b, d)
  {
    if a == [] {
      assert a + b == b;
    } else {
      var head := if a[0].date == d then [a[0]] else [];
      assert (a + b)[0] == a[0];
      assert (a + b)[1..] == a[1..] + b;
      WithDateAppend(a[1..], b, d);
      assert WithDate(a + b, d) == head + (WithDate(a[1..], d) + WithDate(b, d));
      assert WithDate(a, d) == head + WithDate(a[1..], d);
    }
  }

  /** Inserting x keeps the relative order of the records dated like it: x before all of them. */
  lemma {:induction false} InsertWithDate(x: MessageRecord, t: seq<MessageRecord>, d: string)
    ensures WithDate(Insert(x, t), d) == WithDate([x] + t, d)
  {
    if t != [] && !InOrder(x, t[0]) {
      var t' := t[1..];
      InsertWithDate(x, t', d);
      CompareToZero(x.date, t[0].date);
      assert x.date != t[0].date;
      assert ([t[0]] + Insert(x, t'))[1..] == Insert(x, t');
      assert ([x] + t)[1..] == t;
      assert ([x] + t')[1..] == t';
      assert t[1..] == t';
    }
  }

  /** Collections.sort as modelled orders by date string, most recent first, and keeps the records. */
  lemma {:induction false} SortByDateDescSorted(s: seq<MessageRecord>)
    ensures SortedByDateDesc(SortByDateDesc(s))
    ensures multiset(SortByDateDesc(s)) == multiset(s)
    ensures |SortByDateDesc(s)| == |s|
  {
    if s != [] {
      SortByDateDescSorted(s[1..]);
      InsertSorted(s[0], SortByDateDesc(s[1..]));
      InsertMultiset(s[0], SortByDateDesc(s[1..]));
      assert s == [s[0]] + s[1..];
      assert |multiset(SortByDateDesc(s))| == |multiset(s)|;
    }
  }

  /** The sort is stable: the records sharing a date string keep their insertion order. */
  lemma {:induction false} SortByDateDescStable(s: seq<MessageRecord>, d: string)
    ensures WithDate(SortByDateDesc(s), d) == WithDate(s, d)
  {
    if s != [] {
      SortByDateDescStable(s[1..], d);
      InsertWithDate(s[0], SortByDateDesc(s[1..]), d);
      WithDateAppend([s[0]], SortByDateDesc(s[1..]), d);
      WithDateAppend([s[0]], s[1..], d);
      assert s == [s[0]] + s[1..];
    }
  }

  // ---------------------------------------------------------------------------
  // A stable sort has one possible result
  // ---------------------------------------------------------------------------

  lemma {:induction false} SortedHead(a: seq<MessageRecord>, k: int)
    requires SortedByDateDesc(a) && 0 <= k < |a|
    ensures InOrder(a[0], a[k])
  {
    CompareToZero(a[0].date, a[0].date);
    if k > 0 {
      SortedHead(a, k - 1);
      CompareToTransitive(a[0].date, a[k - 1].date, a[k].date);
    }
  }

  lemma {:induction false} WithDateMembers(s: seq<MessageRecord>, d: string, e: MessageRecord)
    requires e in WithDate(s, d)
    ensures e in s && e.date == d
  {
    if s != [] {
      if s[0].date == d && e == s[0] {
      } else {
        assert e in WithDate(s[1..], d);
        WithDateMembers(s[1..], d, e);
      }
    }
  }

  /** Two sorted lists with the same records per date start with the same record. */
  lemma {:induction false} SameHead(a: seq<MessageRecord>, b: seq<MessageRecord>)
    requires SortedByDateDesc(a) && SortedByDateDesc(b) && a != []
    requires forall d :: WithDate(a, d) == WithDate(b, d)
    ensures b != [] && a[0] == b[0]
  {
    assert WithDate(a, a[0].date)[0] == a[0];
    assert WithDate(b, a[0].date) != [];
    assert b != [];
    var x, y := a[0], b[0];
    assert WithDate(b, y.date)[0] == y;
    if x.date != y.date {
      assert y in WithDate(b, y.date);
      WithDateMembers(a, y.date, y);
      var k :| 0 <= k < |a| && a[k] == y;
      SortedHead(a, k);
      assert x in WithDate(a, x.date);
      WithDateMembers(b, x.date, x);
      var m :| 0 <= m < |b| && b[m] == x;
      SortedHead(b, m);
      CompareToAntisymmetric(x.date, y.date);
      CompareToZero(x.date, y.date);
      assert false;
    }
    assert WithDate(a, x.date)[0] == x && WithDate(b, x.date)[0] == y;
  }

  /** Dropping a common head keeps the records per date equal. */
  lemma {:induction false} TailsAgree(a: seq<MessageRecord>, b: seq<MessageRecord>)
    requires a != [] && b != [] && a[0] == b[0]
    requires forall d :: WithDate(a, d) == WithDate(b, d)
    ensures forall d :: WithDate(a[1..], d) == WithDate(b[1..], d)
  {
    var x := a[0];
    forall d ensures WithDate(a[1..], d) == WithDate(b[1..], d) {
      assert WithDate(a, d) == (if x.date == d then [x] else []) + WithDate(a[1..], d);
      assert WithDate(b, d) == (if x.date == d then [x] else []) + WithDate(b[1..], d);
      if x.date == d {
        assert WithDate(a[1..], d) == WithDate(a, d)[1..];
        assert WithDate(b[1..], d) == WithDate(b, d)[1..];
      } else {
        assert WithDate(a, d) == WithDate(a[1..], d);
        assert WithDate(b, d) == WithDate(b[1..], d);
      }
    }
  }

  lemma {:induction false} SortedTail(a: seq<MessageRecord>)
    requires SortedByDateDesc(a) && a != []
    ensures SortedByDateDesc(a[1..])
  {
    forall i | 0 < i < |a[1..]| ensures InOrder(a[1..][i - 1], a[1..][i]) {
      assert a[1..][i - 1] == a[i] && a[1..][i] == a[i + 1];
    }
  }

  lemma {:induction false} SortedUnique(a: seq<MessageRecord>, b: seq<MessageRecord>)
    requires SortedByDateDesc(a) && SortedByDateDesc(b)
    requires forall d :: WithDate(a, d) == WithDate(b, d)
    ensures a == b
    decreases |a|
  {
    if a != [] {
      SameHead(a, b);
      TailsAgree(a, b);
      SortedTail(a);
      SortedTail(b);
      SortedUnique(a[1..], b[1..]);
      assert a == [a[0]] + a[1..] && b == [b[0]] + b[1..];
    } else if b != [] {
      SameHead(b, a);
    }
  }

  /**
   * Any list ordered by the comparator in which the records of each date keep
   * their order in s (what a stable sort of s returns) is SortByDateDesc(s).
   */
  lemma StableSortUnique(s: seq<MessageRecord>, r: seq<MessageRecord>)
    requires SortedByDateDesc(r)
    requires forall d :: WithDate(r, d) == WithDate(s, d)
    ensures r == SortByDateDesc(s)
  {
    SortByDateDescSorted(s);
    forall d ensures WithDate(r, d) == WithDate(SortByDateDesc(s), d) {
      SortByDateDescStable(s, d);
    }
    SortedUnique(r, SortByDateDesc(s));
  }

  // ---------------------------------------------------------------------------
  // Dates are compared as strings
  // ---------------------------------------------------------------------------

  /** For dates written with the same number of digits, string order is numeric order. */
  lemma {:induction false} DecimalCompare(a: nat, b: nat)
    requires |Decimal(a)| == |Decimal(b)|
    ensures CompareTo(Decimal(a), Decimal(b)) < 0 <==> a < b
    ensures CompareTo(Decimal(a), Decimal(b)) == 0 <==> a == b
  {
    if a >= 10 {
      assert b >= 10;
      var x, y := Decimal(a / 10), Decimal(b / 10);
      assert Decimal(a) == x + [DigitChar(a % 10)] && Decimal(b) == y + [DigitChar(b % 10)];
      DecimalCompare(a / 10, b / 10);
      CompareToSnoc(x, y, DigitChar(a % 10), DigitChar(b % 10));
      CompareToZero(x, y);
    }
  }

  /** With a different number of digits they are not: 999 is put before 1000. */
  lemma DecimalCompareLengths()
    ensures CompareTo(Decimal(999), Decimal(1000)) > 0
  {
    assert Decimal(999) == "999";
    assert Decimal(1000) == "1000";
  }
}
