/**
 * The supporters list: the order it is shown in. `sortedList` sorts a copy
 * of the list with a comparator on the chosen key (the amount, compared as a
 * number once commas are removed, or the time, compared as text) in the
 * chosen direction. JavaScript's sort is stable, so the result is the unique
 * stable sort, computed here by insertion. `parseFloat` is a parameter
 * (`None` for NaN).
 */
module SupportList {
  import opened Wrappers
  import opened Seqs

  datatype SupportRecord = SupportRecord(
    amount: Option<string>,
    item: string,
    message: string,
    name: string,
    time: Option<string>,
    unit: string)

  datatype SortKey = Time | Amount
  datatype SortOrder = Asc | Desc

  /** The list opens sorted by amount, largest first. */
  const DefaultKey := Amount
  const DefaultOrder := Desc

  /** The menu's two entries: by amount and by time, both descending. */
  function MenuChoice(key: SortKey): (r: (SortKey, SortOrder))
    ensures r.0 == key && r.1 == Desc
  {
    (key, Desc)
  }

  /** The key a record is compared on. */
  datatype KeyValue = Number(x: real) | Text(s: string)

  /** The characters `s.replace(/,/g, '')` keeps. */
  predicate NotComma(c: char) {
    c != ','
  }

  /** `s.replace(/,/g, '')`: every character but the commas, in order. */
  function RemoveCommas(s: string): (r: string)
    ensures ',' !in r
    ensures forall c :: c in r <==> c in s && c != ','
    ensures ',' !in s ==> r == s
  {
    var r := Filter(s, NotComma);
    assert forall c :: c in s && c != ',' ==> c in r by {
      forall c | c in s && c != ',' ensures c in r {
        var k :| 0 <= k < |s| && s[k] == c;
      }
    }
    assert ',' !in s ==> r == s by {
      if ',' !in s {
        FilterAll(s, NotComma);
      }
    }
    r
  }

  /**
   * Removing the commas keeps every other character, in order: it works
   * piece by piece and leaves a subsequence of the text.
   */
  lemma RemoveCommasKeepsOrder(a: string, b: string)
    ensures RemoveCommas(a + b) == RemoveCommas(a) + RemoveCommas(b)
    ensures Subsequence(RemoveCommas(a), a)
  {
    FilterAppend(a, b, NotComma);
    FilterSubsequence(a, NotComma);
  }

  /** `parseFloat(String(a.amount || "0").replace(/,/g, '')) || 0`: NaN and zero both give 0. */
  function AmountValue(amount: Option<string>, parseFloat: string -> Option<real>): real {
    var text := if amount.None? || amount.value == "" then "0" else amount.value;
    match parseFloat(RemoveCommas(text))
    case None => 0.0
    case Some(x) => x
  }

  function KeyOf(r: SupportRecord, key: SortKey, parseFloat: string -> Option<real>): (k: KeyValue)
    ensures key == Amount ==> k.Number?
    ensures key == Time ==> k.Text?
  {
    match key
    case Amount => Number(AmountValue(r.amount, parseFloat))
    case Time => Text(r.time.GetOr(""))
  }

  /** A missing or empty amount counts as 0, and so does one `parseFloat` cannot read. */
  lemma MissingAmountIsZero(r: SupportRecord, parseFloat: string -> Option<real>)
    requires parseFloat("0").None? || parseFloat("0") == Some(0.0)
    requires r.amount.None? || r.amount.value == "" || parseFloat(RemoveCommas(r.amount.value)).None?
    ensures KeyOf(r, Amount, parseFloat) == Number(0.0)
  {
    FilterAll("0", NotComma);
  }

  /** Amounts that differ only in their commas compare alike. */
  lemma CommasIgnored(a: SupportRecord, b: SupportRecord, parseFloat: string -> Option<real>)
    requires a.amount.Some? && a.amount.value != "" && b.amount.Some? && b.amount.value != ""
    requires RemoveCommas(a.amount.value) == RemoveCommas(b.amount.value)
    ensures KeyOf(a, Amount, parseFloat) == KeyOf(b, Amount, parseFloat)
  {
  }

  // ---------------------------------------------------------------------------
  // The comparison

  /** JavaScript's `<` on strings: lexicographic, character by character. */
  predicate LexLess(a: string, b: string)
    decreases |a|
  {
    if a == [] then b != []
    else b != [] && (a[0] < b[0] || (a[0] == b[0] && LexLess(a[1..], b[1..])))
  }

  lemma {:induction false} LexIrreflexive(a: string)
    ensures !LexLess(a, a)
    decreases |a|
  {
    if a != [] {
      LexIrreflexive(a[1..]);
    }
  }

  lemma {:induction false} LexTransitive(a: string, b: string, c: string)
    requires LexLess(a, b) && LexLess(b, c)
    ensures LexLess(a, c)
    decreases |a|
  {
    if a != [] && a[0] == b[0] && b[0] == c[0] {
      LexTransitive(a[1..], b[1..], c[1..]);
    }
  }

  lemma {:induction false} LexTotal(a: string, b: string)
    requires a != b
    ensures LexLess(a, b) || LexLess(b, a)
    decreases |a|
  {
    if a != [] && b != [] && a[0] == b[0] {
      assert a == [a[0]] + a[1..];
      assert b == [b[0]] + b[1..];
      LexTotal(a[1..], b[1..]);
    }
  }

  predicate KeyLess(a: KeyValue, b: KeyValue) {
    match (a, b)
    case (Number(x), Number(y)) => x < y
    case (Text(s), Text(t)) => LexLess(s, t)
    case _ => false
  }

  /**
   * The comparator is negative: `a` is placed before `b`. Zero, neither
   * ahead of the other, means equal keys.
   */
  predicate Ahead(a: SupportRecord, b: SupportRecord, key: SortKey, order: SortOrder, parseFloat: string -> Option<real>) {
    var ka, kb := KeyOf(a, key, parseFloat), KeyOf(b, key, parseFloat);
    if order == Asc then KeyLess(ka, kb) else KeyLess(kb, ka)
  }

  lemma KeyLessAsymmetric(a: KeyValue, b: KeyValue)
    requires KeyLess(a, b)
    ensures !KeyLess(b, a)
  {
    if a.Text? && b.Text? && LexLess(b.s, a.s) {
      LexTransitive(a.s, b.s, a.s);
      LexIrreflexive(a.s);
    }
  }

  /** On keys of one kind, neither less than the other means equal. */
  lemma KeyLessTotal(a: KeyValue, b: KeyValue)
    requires a.Number? == b.Number?
    ensures !KeyLess(a, b) && !KeyLess(b, a) <==> a == b
  {
    if a.Text? && a != b {
      LexTotal(a.s, b.s);
    }
    if a.Text? && a == b {
      LexIrreflexive(a.s);
    }
  }

  lemma KeyLessTransitive(a: KeyValue, b: KeyValue, c: KeyValue)
    requires KeyLess(a, b) && KeyLess(b, c)
    ensures KeyLess(a, c)
  {
    if a.Text? {
      LexTransitive(a.s, b.s, c.s);
    }
  }

  lemma AheadAsymmetric(a: SupportRecord, b: SupportRecord, key: SortKey, order: SortOrder, parseFloat: string -> Option<real>)
    requires Ahead(a, b, key, order, parseFloat)
    ensures !Ahead(b, a, key, order, parseFloat)
  {
    var ka, kb := KeyOf(a, key, parseFloat), KeyOf(b, key, parseFloat);
    if order == Asc {
      KeyLessAsymmetric(ka, kb);
    } else {
      KeyLessAsymmetric(kb, ka);
    }
  }

  /** On keys of one kind, "not less" is transitive. */
  lemma NotLessTransitive(a: KeyValue, b: KeyValue, c: KeyValue)
    requires a.Number? == b.Number? == c.Number?
    requires !KeyLess(b, a) && !KeyLess(c, b)
    ensures !KeyLess(c, a)
  {
    KeyLessTotal(a, b);
    KeyLessTotal(b, c);
    if a != b {
      if b == c {
        KeyLessAsymmetric(a, c);
      } else {
        KeyLessTransitive(a, b, c);
        KeyLessAsymmetric(a, c);
      }
    }
  }

  /** Not ahead is transitive: what the insertion relies on. */
  lemma NotAheadTransitive(a: SupportRecord, b: SupportRecord, c: SupportRecord, key: SortKey, order: SortOrder, parseFloat: string -> Option<real>)
    requires !Ahead(a, b, key, order, parseFloat) && !Ahead(b, c, key, order, parseFloat)
    ensures !Ahead(a, c, key, order, parseFloat)
  {
    var ka, kb, kc := KeyOf(a, key, parseFloat), KeyOf(b, key, parseFloat), KeyOf(c, key, parseFloat);
    if order == Asc {
      NotLessTransitive(kc, kb, ka);
    } else {
      NotLessTransitive(ka, kb, kc);
    }
  }

  // ---------------------------------------------------------------------------
  // The sort

  /** Ordered: no record is ahead of one placed before it. */
  ghost predicate Sorted(xs: seq<SupportRecord>, key: SortKey, order: SortOrder, parseFloat: string -> Option<real>) {
    forall i, j :: 0 <= i < j < |xs| ==> !Ahead(xs[j], xs[i], key, order, parseFloat)
  }

  /** `x` placed after the records ahead of it and before the first that is not. */
  function Insert(x: SupportRecord, s: seq<SupportRecord>, key: SortKey, order: SortOrder, parseFloat: string -> Option<real>): (r: seq<SupportRecord>)
    ensures multiset(r) == multiset(s) + multiset{x}
    decreases |s|
  {
    if s == [] then [x]
    else if Ahead(s[0], x, key, order, parseFloat) then
      assert s == [s[0]] + s[1..];
      [s[0]] + Insert(x, s[1..], key, order, parseFloat)
    else [x] + s
  }

  /** `[...supportList].sort(comparator)`: a new list, the input untouched. */
  function SortedList(xs: seq<SupportRecord>, key: SortKey, order: SortOrder, parseFloat: string -> Option<real>): (r: seq<SupportRecord>)
    ensures multiset(r) == multiset(xs)
    decreases |xs|
  {
    if xs == [] then []
    else
      assert xs == [xs[0]] + xs[1..];
      Insert(xs[0], SortedList(xs[1..], key, order, parseFloat), key, order, parseFloat)
  }

  lemma {:induction false} InsertSorted(x: SupportRecord, s: seq<SupportRecord>, key: SortKey, order: SortOrder, parseFloat: string -> Option<real>)
    requires Sorted(s, key, order, parseFloat)
    ensures Sorted(Insert(x, s, key, order, parseFloat), key, order, parseFloat)
    decreases |s|
  {
    if s == [] {
    } else if Ahead(s[0], x, key, order, parseFloat) {
      var t := Insert(x, s[1..], key, order, parseFloat);
      SortedTail(s, key, order, parseFloat);
      InsertSorted(x, s[1..], key, order, parseFloat);
      forall j | 0 <= j < |t|
        ensures !Ahead(t[j], s[0], key, order, parseFloat)
      {
        InsertMember(x, s[1..], t[j], key, order, parseFloat);
        if t[j] == x {
          AheadAsymmetric(s[0], x, key, order, parseFloat);
        } else {
          SortedBehindHead(s, t[j], key, order, parseFloat);
        }
      }
      SortedCons(s[0], t, key, order, parseFloat);
      assert Insert(x, s, key, order, parseFloat) == [s[0]] + t;
    } else {
      forall j | 0 <= j < |s|
        ensures !Ahead(s[j], x, key, order, parseFloat)
      {
        if j > 0 {
          SortedAt(s, key, order, parseFloat, 0, j);
          NotAheadTransitive(s[j], s[0], x, key, order, parseFloat);
        }
      }
      SortedCons(x, s, key, order, parseFloat);
      assert Insert(x, s, key, order, parseFloat) == [x] + s;
    }
  }

  /** A record no later one is ahead of, put in front of an ordered list, keeps it ordered. */
  lemma SortedCons(y: SupportRecord, t: seq<SupportRecord>, key: SortKey, order: SortOrder, parseFloat: string -> Option<real>)
    requires Sorted(t, key, order, parseFloat)
    requires forall j :: 0 <= j < |t| ==> !Ahead(t[j], y, key, order, parseFloat)
    ensures Sorted([y] + t, key, order, parseFloat)
  {
    var r := [y] + t;
    forall i, j | 0 <= i < j < |r|
      ensures !Ahead(r[j], r[i], key, order, parseFloat)
    {
      assert r[j] == t[j - 1];
      if i > 0 {
        assert r[i] == t[i - 1];
        SortedAt(t, key, order, parseFloat, i - 1, j - 1);
      } else {
        assert r[i] == y;
        BehindAt(y, t, key, order, parseFloat, j - 1);
      }
    }
  }

  lemma BehindAt(y: SupportRecord, t: seq<SupportRecord>, key: SortKey, order: SortOrder, parseFloat: string -> Option<real>, j: nat)
    requires forall j :: 0 <= j < |t| ==> !Ahead(t[j], y, key, order, parseFloat)
    requires j < |t|
    ensures !Ahead(t[j], y, key, order, parseFloat)
  {
  }

  lemma SortedTail(s: seq<SupportRecord>, key: SortKey, order: SortOrder, parseFloat: string -> Option<real>)
    requires Sorted(s, key, order, parseFloat) && s != []
    ensures Sorted(s[1..], key, order, parseFloat)
  {
    var t := s[1..];
    forall i, j | 0 <= i < j < |t|
      ensures !Ahead(t[j], t[i], key, order, parseFloat)
    {
      assert t[j] == s[j + 1] && t[i] == s[i + 1];
    }
  }

  /** What `Insert` places is `x` or a record of `s`. */
  lemma InsertMember(x: SupportRecord, s: seq<SupportRecord>, y: SupportRecord, key: SortKey, order: SortOrder, parseFloat: string -> Option<real>)
    requires y in Insert(x, s, key, order, parseFloat)
    ensures y == x || y in s
  {
    assert y in multiset(Insert(x, s, key, order, parseFloat));
  }

  /** In an ordered list no later record is ahead of the first. */
  lemma SortedBehindHead(s: seq<SupportRecord>, y: SupportRecord, key: SortKey, order: SortOrder, parseFloat: string -> Option<real>)
    requires Sorted(s, key, order, parseFloat) && s != [] && y in s[1..]
    ensures !Ahead(y, s[0], key, order, parseFloat)
  {
    var k :| 0 <= k < |s[1..]| && s[1..][k] == y;
    assert s[k + 1] == y;
  }

  /** The shown list is ordered by the chosen key in the chosen direction. */
  lemma {:induction false} SortedListSorted(xs: seq<SupportRecord>, key: SortKey, order: SortOrder, parseFloat: string -> Option<real>)
    ensures Sorted(SortedList(xs, key, order, parseFloat), key, order, parseFloat)
    decreases |xs|
  {
    if xs != [] {
      SortedListSorted(xs[1..], key, order, parseFloat);
      InsertSorted(xs[0], SortedList(xs[1..], key, order, parseFloat), key, order, parseFloat);
    }
  }

  /** The records with key `k`, in order. */
  function WithKey(xs: seq<SupportRecord>, k: KeyValue, key: SortKey, parseFloat: string -> Option<real>): seq<SupportRecord>
    decreases |xs|
  {
    if xs == [] then []
    else (if KeyOf(xs[0], key, parseFloat) == k then [xs[0]] else []) + WithKey(xs[1..], k, key, parseFloat)
  }

  lemma WithKeyCons(x: SupportRecord, s: seq<SupportRecord>, k: KeyValue, key: SortKey, parseFloat: string -> Option<real>)
    ensures WithKey([x] + s, k, key, parseFloat) == (if KeyOf(x, key, parseFloat) == k then [x] else []) + WithKey(s, k, key, parseFloat)
  {
    assert ([x] + s)[1..] == s;
  }

  lemma {:induction false} InsertStable(x: SupportRecord, s: seq<SupportRecord>, k: KeyValue, key: SortKey, order: SortOrder, parseFloat: string -> Option<real>)
    ensures WithKey(Insert(x, s, key, order, parseFloat), k, key, parseFloat) ==
      (if KeyOf(x, key, parseFloat) == k then [x] else []) + WithKey(s, k, key, parseFloat)
    decreases |s|
  {
    if s == [] {
      WithKeyCons(x, [], k, key, parseFloat);
    } else if Ahead(s[0], x, key, order, parseFloat) {
      InsertStable(x, s[1..], k, key, order, parseFloat);
      InsertStableAhead(x, s, k, key, order, parseFloat);
    } else {
      WithKeyCons(x, s, k, key, parseFloat);
    }
  }

  /** The step of `InsertStable` past a record ahead of `x`. */
  lemma InsertStableAhead(x: SupportRecord, s: seq<SupportRecord>, k: KeyValue, key: SortKey, order: SortOrder, parseFloat: string -> Option<real>)
    requires s != [] && Ahead(s[0], x, key, order, parseFloat)
    requires WithKey(Insert(x, s[1..], key, order, parseFloat), k, key, parseFloat) ==
      (if KeyOf(x, key, parseFloat) == k then [x] else []) + WithKey(s[1..], k, key, parseFloat)
    ensures WithKey(Insert(x, s, key, order, parseFloat), k, key, parseFloat) ==
      (if KeyOf(x, key, parseFloat) == k then [x] else []) + WithKey(s, k, key, parseFloat)
  {
    var px := if KeyOf(x, key, parseFloat) == k then [x] else [];
    var p0 := if KeyOf(s[0], key, parseFloat) == k then [s[0]] else [];
    var t := Insert(x, s[1..], key, order, parseFloat);
    var w := WithKey(s[1..], k, key, parseFloat);
    AheadKeysDiffer(s[0], x, key, order, parseFloat);
    calc {
      WithKey(Insert(x, s, key, order, parseFloat), k, key, parseFloat);
      WithKey([s[0]] + t, k, key, parseFloat);
      { WithKeyCons(s[0], t, k, key, parseFloat); }
      p0 + (px + w);
      { SwapDisjoint(p0, px, w); }
      px + (p0 + w);
      { WithKeyCons(s[0], s[1..], k, key, parseFloat); assert [s[0]] + s[1..] == s; }
      px + WithKey(s, k, key, parseFloat);
    }
  }

  lemma SwapDisjoint(a: seq<SupportRecord>, b: seq<SupportRecord>, w: seq<SupportRecord>)
    requires a == [] || b == []
    ensures a + (b + w) == b + (a + w)
  {
    if a == [] {
      assert a + (b + w) == b + w && a + w == w;
    } else {
      assert b + w == w && b + (a + w) == a + w;
    }
  }

  /** A record ahead of another has a different key. */
  lemma AheadKeysDiffer(a: SupportRecord, b: SupportRecord, key: SortKey, order: SortOrder, parseFloat: string -> Option<real>)
    requires Ahead(a, b, key, order, parseFloat)
    ensures KeyOf(a, key, parseFloat) != KeyOf(b, key, parseFloat)
  {
    var ka, kb := KeyOf(a, key, parseFloat), KeyOf(b, key, parseFloat);
    KeyLessTotal(ka, kb);
  }

  /**
   * Stability: the records with any one key appear in the shown list in
   * the order they had in the input.
   */
  lemma {:induction false} SortedListStable(xs: seq<SupportRecord>, k: KeyValue, key: SortKey, order: SortOrder, parseFloat: string -> Option<real>)
    ensures WithKey(SortedList(xs, key, order, parseFloat), k, key, parseFloat) == WithKey(xs, k, key, parseFloat)
    decreases |xs|
  {
    if xs != [] {
      SortedListStable(xs[1..], k, key, order, parseFloat);
      InsertStable(xs[0], SortedList(xs[1..], key, order, parseFloat), k, key, order, parseFloat);
    }
  }

  /** Sorted by amount, largest first, the first record has the largest amount. */
  lemma DefaultOrderLargestFirst(xs: seq<SupportRecord>, parseFloat: string -> Option<real>, i: nat)
    requires i < |xs|
    ensures AmountValue(SortedList(xs, DefaultKey, DefaultOrder, parseFloat)[0].amount, parseFloat) >= AmountValue(xs[i].amount, parseFloat)
  {
    var r := SortedList(xs, DefaultKey, DefaultOrder, parseFloat);
    assert xs[i] in multiset(xs);
    var j := IndexOf(r, xs[i]);
    HeadNotBehind(xs, parseFloat, j);
  }

  lemma SortedAt(s: seq<SupportRecord>, key: SortKey, order: SortOrder, parseFloat: string -> Option<real>, i: nat, j: nat)
    requires Sorted(s, key, order, parseFloat) && i < j < |s|
    ensures !Ahead(s[j], s[i], key, order, parseFloat)
  {
  }

  /** A record of the list is found at some index. */
  lemma IndexOf(s: seq<SupportRecord>, x: SupportRecord) returns (j: nat)
    requires x in multiset(s)
    ensures j < |s| && s[j] == x
  {
    j :| 0 <= j < |s| && s[j] == x;
  }

  /** No record of the default order has a larger amount than the first. */
  lemma HeadNotBehind(xs: seq<SupportRecord>, parseFloat: string -> Option<real>, j: nat)
    requires j < |SortedList(xs, DefaultKey, DefaultOrder, parseFloat)|
    ensures var r := SortedList(xs, DefaultKey, DefaultOrder, parseFloat);
      AmountValue(r[0].amount, parseFloat) >= AmountValue(r[j].amount, parseFloat)
  {
    var r := SortedList(xs, DefaultKey, DefaultOrder, parseFloat);
    if j > 0 {
      SortedListSorted(xs, DefaultKey, DefaultOrder, parseFloat);
      SortedAt(r, Amount, Desc, parseFloat, 0, j);
    }
  }
}
