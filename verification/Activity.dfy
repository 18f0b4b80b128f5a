/**
  The activity table, its keyset pages and a reader that follows cursors while writers insert.

  How timestamps and UUIDs are written and parsed is a parameter: `Text` holds the library
  functions, and `Faithful` what is relied on, that parsing undoes writing and that the texts are
  short and free of the separator.
*/
module Activity {
  import opened Common
  import opened Ordering
  import C = Cursor

  /** The twenty digits of a UTC time from year to microsecond, which order as the times do. */
  type Instant = t: int | 0 <= t < 100_000_000_000_000_000_000
  type Uuid = u: int | 0 <= u < 0x1_0000_0000_0000_0000_0000_0000_0000_0000

  datatype Key = Key(at: Instant, id: Uuid)

  /** One activity row, reduced to its key and its unique request id. */
  datatype Row = Row(key: Key, requestId: string)

  predicate Older(a: Key, b: Key) {
    a.at < b.at || (a.at == b.at && a.id < b.id)
  }

  /** Newest first. */
  predicate NewerOrSame(a: Row, b: Row) {
    !Older(a.key, b.key)
  }

  datatype Timestamp = Timestamp(at: Instant, zoned: bool)

  datatype Text = Text(
    writeTime: Instant -> C.Text, parseTime: C.Text -> Option<Timestamp>,
    writeId: Uuid -> C.Text, parseId: C.Text -> Option<Uuid>)

  ghost predicate Faithful(text: Text) {
    && (forall t: Instant {:trigger text.writeTime(t)} ::
          text.parseTime(text.writeTime(t)) == Some(Timestamp(t, true)) && C.SEPARATOR !in text.writeTime(t))
    && (forall u: Uuid {:trigger text.writeId(u)} :: text.parseId(text.writeId(u)) == Some(u))
    && (forall t: Instant, u: Uuid {:trigger text.writeTime(t), text.writeId(u)} ::
          |text.writeTime(t)| + 1 + |text.writeId(u)| <= 192)
  }

  // ---------- The texts of Python's library ----------

  function DigitByte(d: nat): C.Byte
    requires d < 16
  {
    if d < 10 then 48 + d else 87 + d
  }

  function DigitValue(c: C.Byte): nat {
    if 48 <= c <= 57 then c - 48 else if 97 <= c <= 102 then c - 87 else 0
  }

  /** Ten or sixteen. */
  function Times(n: nat, hex: bool): nat {
    if hex then 16 * n else 10 * n
  }

  function Front(n: nat, hex: bool): nat {
    if hex then n / 16 else n / 10
  }

  function Last(n: nat, hex: bool): nat {
    if hex then n % 16 else n % 10
  }

  /** A number in `width` decimal or hexadecimal digits, and back. */
  function WriteNumber(n: nat, width: nat, hex: bool): C.Text {
    if width == 0 then [] else WriteNumber(Front(n, hex), width - 1, hex) + [DigitByte(Last(n, hex))]
  }

  function ReadNumber(s: C.Text, hex: bool): nat {
    if s == [] then 0 else Times(ReadNumber(s[..|s| - 1], hex), hex) + DigitValue(s[|s| - 1])
  }

  function Power(width: nat, hex: bool): nat {
    if width == 0 then 1 else Times(Power(width - 1, hex), hex)
  }

  lemma {:induction false} ReadAppend(s: C.Text, c: C.Byte, hex: bool)
    ensures ReadNumber(s + [c], hex) == Times(ReadNumber(s, hex), hex) + DigitValue(c)
  {
    assert (s + [c])[..|s|] == s;
  }

  lemma DigitRoundTrip(d: nat)
    requires d < 16
    ensures DigitValue(DigitByte(d)) == d && DigitByte(d) != C.SEPARATOR
  {
  }

  lemma {:induction false} NumberRoundTrip(n: nat, width: nat, hex: bool)
    requires n < Power(width, hex)
    ensures |WriteNumber(n, width, hex)| == width && ReadNumber(WriteNumber(n, width, hex), hex) == n
    ensures C.SEPARATOR !in WriteNumber(n, width, hex)
  {
    if width > 0 {
      NumberRoundTrip(Front(n, hex), width - 1, hex);
      ReadAppend(WriteNumber(Front(n, hex), width - 1, hex), DigitByte(Last(n, hex)), hex);
      DigitRoundTrip(Last(n, hex));
    }
  }

  const DASH: C.Byte := 45
  const COLON: C.Byte := 58
  const DOT: C.Byte := 46
  const NO_FRACTION: C.Text := [48, 48, 48, 48, 48, 48]
  const UTC: C.Text := [43, 48, 48, 58, 48, 48]

  /** The date and time of day of twenty digits, to the second. */
  function Civil(d: C.Text): C.Text
    requires |d| == 20
  {
    d[..4] + [DASH] + d[4..6] + [DASH] + d[6..8] + [84] + d[8..10] + [COLON] + d[10..12] + [COLON] + d[12..14]
  }

  /** YYYY-MM-DDTHH:MM:SS.ffffff+00:00, without the fraction when it is zero. */
  function IsoTime(t: Instant): C.Text {
    NumberWidth(t, 20, false);
    var d := WriteNumber(t, 20, false);
    Civil(d) + (if d[14..] == NO_FRACTION then [] else [DOT] + d[14..]) + UTC
  }

  lemma {:induction false} NumberWidth(n: nat, width: nat, hex: bool)
    ensures |WriteNumber(n, width, hex)| == width
  {
    if width > 0 {
      NumberWidth(Front(n, hex), width - 1, hex);
    }
  }

  function ParseIso(s: C.Text): Option<Timestamp> {
    if (|s| == 25 || |s| == 32) && s[|s| - 6..] == UTC then
      var fraction := if |s| == 32 then s[20..26] else NO_FRACTION;
      var n := ReadNumber(s[..4] + s[5..7] + s[8..10] + s[11..13] + s[14..16] + s[17..19] + fraction, false);
      if n < 100_000_000_000_000_000_000 then Some(Timestamp(n, true)) else None
    else None
  }

  /** Thirty-two hexadecimal digits in five groups. */
  function Hyphenated(u: Uuid): C.Text {
    NumberWidth(u, 32, true);
    var h := WriteNumber(u, 32, true);
    h[..8] + [DASH] + h[8..12] + [DASH] + h[12..16] + [DASH] + h[16..20] + [DASH] + h[20..]
  }

  function ParseUuid(s: C.Text): Option<Uuid> {
    if |s| == 36 then
      var n := ReadNumber(s[..8] + s[9..13] + s[14..18] + s[19..23] + s[24..], true);
      if n < 0x1_0000_0000_0000_0000_0000_0000_0000_0000 then Some(n) else None
    else None
  }

  lemma CivilParts(d: C.Text, rest: C.Text)
    requires |d| == 20
    ensures var s := Civil(d) + rest;
            && |Civil(d)| == 19 && s[19..] == rest
            && s[..4] + s[5..7] + s[8..10] + s[11..13] + s[14..16] + s[17..19] == d[..14]
  {
    var s := Civil(d) + rest;
    assert s[..4] == d[..4] && s[5..7] == d[4..6] && s[8..10] == d[6..8];
    assert s[11..13] == d[8..10] && s[14..16] == d[10..12] && s[17..19] == d[12..14];
    assert d[..14] == d[..4] + d[4..6] + d[6..8] + d[8..10] + d[10..12] + d[12..14];
  }

  lemma FourMore(width: nat, hex: bool)
    ensures Power(width + 4, hex) == if hex then 65536 * Power(width, hex) else 10_000 * Power(width, hex)
  {
    assert Power(width + 2, hex) == Times(Times(Power(width, hex), hex), hex);
    assert Power(width + 4, hex) == Times(Times(Power(width + 2, hex), hex), hex);
  }

  lemma DecimalPowers()
    ensures Power(20, false) == 100_000_000_000_000_000_000
  {
    FourMore(0, false);
    FourMore(4, false);
    FourMore(8, false);
    FourMore(12, false);
    FourMore(16, false);
  }

  lemma {:induction false} TwentyDigits(t: Instant)
    ensures |WriteNumber(t, 20, false)| == 20 && ReadNumber(WriteNumber(t, 20, false), false) == t
    ensures C.SEPARATOR !in WriteNumber(t, 20, false)
  {
    DecimalPowers();
    NumberRoundTrip(t, 20, false);
  }

  lemma CivilSeparator(d: C.Text)
    requires |d| == 20 && C.SEPARATOR !in d
    ensures C.SEPARATOR !in Civil(d)
  {
  }

  lemma IsoRoundTrip(t: Instant)
    ensures ParseIso(IsoTime(t)) == Some(Timestamp(t, true))
    ensures C.SEPARATOR !in IsoTime(t) && |IsoTime(t)| <= 32
  {
    TwentyDigits(t);
    var d := WriteNumber(t, 20, false);
    CivilSeparator(d);
    IsoParts(d, if d[14..] == NO_FRACTION then [] else [DOT] + d[14..], IsoTime(t));
  }

  lemma IsoParts(d: C.Text, fraction: C.Text, s: C.Text)
    requires |d| == 20 && s == Civil(d) + fraction + UTC
    requires fraction == if d[14..] == NO_FRACTION then [] else [DOT] + d[14..]
    ensures |s| == 25 + |fraction| && s[|s| - 6..] == UTC
    ensures s[..4] + s[5..7] + s[8..10] + s[11..13] + s[14..16] + s[17..19]
            + (if |s| == 32 then s[20..26] else NO_FRACTION) == d
  {
    assert s == Civil(d) + (fraction + UTC);
    CivilParts(d, fraction + UTC);
    if fraction == [] {
      WholeSecond(d, s);
    } else {
      PartOfSecond(d, s);
    }
  }

  lemma WholeSecond(d: C.Text, s: C.Text)
    requires |d| == 20 && d[14..] == NO_FRACTION && |s| >= 19 && s[19..] == UTC
    ensures |s| == 25 && s[|s| - 6..] == UTC
    ensures d[..14] + NO_FRACTION == d
  {
    assert d == d[..14] + d[14..];
  }

  lemma PartOfSecond(d: C.Text, s: C.Text)
    requires |d| == 20 && |s| >= 19 && s[19..] == [DOT] + d[14..] + UTC
    ensures |s| == 32 && s[|s| - 6..] == UTC
    ensures d[..14] + s[20..26] == d
  {
    var rest := [DOT] + d[14..] + UTC;
    assert rest[1..7] == d[14..] && rest[7..] == UTC;
    assert s[20..26] == s[19..][1..7] && s[26..] == s[19..][7..];
    assert d == d[..14] + d[14..];
  }

  /** YYYY-MM-DDTHH:MM:SS, an optional point with six digits, +00:00. */
  lemma IsoShape(t: Instant)
    ensures var s := IsoTime(t);
            && (|s| == 25 || (|s| == 32 && s[19] == 46))
            && s[4] == s[7] == 45 && s[10] == 84 && s[13] == s[16] == 58
            && s[|s| - 6..] == [43, 48, 48, 58, 48, 48]
  {
    TwentyDigits(t);
    var d := WriteNumber(t, 20, false);
    IsoParts(d, if d[14..] == NO_FRACTION then [] else [DOT] + d[14..], IsoTime(t));
  }

  /** Eight, four, four, four and twelve digits between hyphens. */
  lemma UuidShape(u: Uuid)
    ensures var s := Hyphenated(u);
            |s| == 36 && s[8] == s[13] == s[18] == s[23] == 45
  {
    UuidPowers();
    NumberRoundTrip(u, 32, true);
    UuidParts(WriteNumber(u, 32, true), Hyphenated(u));
  }

  lemma UuidPowers()
    ensures Power(32, true) == 0x1_0000_0000_0000_0000_0000_0000_0000_0000
  {
    FourMore(0, true);
    FourMore(4, true);
    FourMore(8, true);
    FourMore(12, true);
    FourMore(16, true);
    FourMore(20, true);
    FourMore(24, true);
    FourMore(28, true);
  }

  lemma UuidRoundTrip(u: Uuid)
    ensures ParseUuid(Hyphenated(u)) == Some(u) && |Hyphenated(u)| == 36
  {
    UuidPowers();
    NumberRoundTrip(u, 32, true);
    UuidParts(WriteNumber(u, 32, true), Hyphenated(u));
  }

  lemma UuidParts(h: C.Text, s: C.Text)
    requires |h| == 32 && s == h[..8] + [DASH] + h[8..12] + [DASH] + h[12..16] + [DASH] + h[16..20] + [DASH] + h[20..]
    ensures |s| == 36 && s[8] == s[13] == s[18] == s[23] == DASH
    ensures s[..8] + s[9..13] + s[14..18] + s[19..23] + s[24..] == h
  {
    assert s[..8] == h[..8] && s[9..13] == h[8..12] && s[14..18] == h[12..16];
    assert s[19..23] == h[16..20] && s[24..] == h[20..];
    assert h == h[..8] + h[8..12] + h[12..16] + h[16..20] + h[20..];
  }

  /** ISO times and hyphenated UUIDs are such texts. */
  lemma LibraryTextsAreFaithful()
    ensures Faithful(Text(IsoTime, ParseIso, Hyphenated, ParseUuid))
  {
    forall t: Instant
      ensures ParseIso(IsoTime(t)) == Some(Timestamp(t, true)) && C.SEPARATOR !in IsoTime(t) && |IsoTime(t)| <= 32
    {
      IsoRoundTrip(t);
    }
    forall u: Uuid
      ensures ParseUuid(Hyphenated(u)) == Some(u) && |Hyphenated(u)| == 36
    {
      UuidRoundTrip(u);
    }
  }

  datatype ActivityError = InvalidCursor

  function EncodeKey(text: Text, key: Key): string {
    C.EncodeCursor(text.writeTime(key.at), text.writeId(key.id))
  }

  function DecodeKey(text: Text, cursor: string): Result<Key, ActivityError> {
    match C.DecodeCursor(cursor)
    case None => Err(InvalidCursor)
    case Some((timestamp, id)) =>
      match (text.parseTime(timestamp), text.parseId(id))
      case (Some(t), Some(u)) => if t.zoned then Ok(Key(t.at, u)) else Err(InvalidCursor)
      case _ => Err(InvalidCursor)
  }

  /** The rows strictly older than a key. */
  function Before(rows: seq<Row>, before: Option<Key>): seq<Row> {
    if rows == [] then []
    else (if before.None? || Older(rows[0].key, before.value) then [rows[0]] else []) + Before(rows[1..], before)
  }

  /** Filter, sort, take one row more than the page holds: the page and whether that row exists. */
  function List(rows: seq<Row>, limit: nat, before: Option<Key>): (seq<Row>, bool) {
    var sorted := Sort(NewerOrSame, Before(rows, before));
    var fetched := if limit + 1 < |sorted| then sorted[..limit + 1] else sorted;
    (if limit < |fetched| then fetched[..limit] else fetched, |fetched| > limit)
  }

  datatype Page = Page(items: seq<Row>, next: Option<string>)

  function PageOf(text: Text, rows: seq<Row>, limit: nat, cursor: Option<string>): Result<Page, ActivityError> {
    if cursor.Some? && DecodeKey(text, cursor.value).Err? then Err(InvalidCursor)
    else
      var before := if cursor.None? then None else Some(DecodeKey(text, cursor.value).value);
      var (items, more) := List(rows, limit, before);
      Ok(Page(items, if more && items != [] then Some(EncodeKey(text, items[|items| - 1].key)) else None))
  }

  lemma KeyRoundTrip(text: Text, key: Key)
    requires Faithful(text)
    ensures DecodeKey(text, EncodeKey(text, key)) == Ok(key)
  {
    C.CursorRoundTrip(text.writeTime(key.at), text.writeId(key.id));
  }

  // ---------- One page ----------

  predicate SameKey(a: Row, b: Row) {
    a.key == b.key
  }

  ghost predicate Descending(rows: seq<Row>) {
    forall i, j :: 0 <= i < j < |rows| ==> Older(rows[j].key, rows[i].key)
  }

  lemma {:induction false} BeforeSpec(rows: seq<Row>, before: Option<Key>)
    ensures forall x :: x in Before(rows, before) <==> x in rows && (before.None? || Older(x.key, before.value))
    ensures Separate(SameKey, rows) ==> Separate(SameKey, Before(rows, before))
    ensures before.None? ==> Before(rows, before) == rows
  {
    if rows != [] {
      assert rows == [rows[0]] + rows[1..];
      BeforeSpec(rows[1..], before);
      var rest := Before(rows[1..], before);
      if Separate(SameKey, rows) {
        forall i | 0 <= i < |rest|
          ensures !SameKey(rows[0], rest[i])
        {
          assert rest[i] in rows[1..];
        }
      }
    }
  }

  /** The whole table, newest first. */
  lemma {:induction false} SortedTable(rows: seq<Row>)
    requires Separate(SameKey, rows)
    ensures Descending(Sort(NewerOrSame, rows))
    ensures forall x :: x in Sort(NewerOrSame, rows) <==> x in rows
    ensures |Sort(NewerOrSame, rows)| == |rows|
  {
    assert Preorder(NewerOrSame);
    SortSpec(NewerOrSame, rows);
    SortSeparate(NewerOrSame, SameKey, rows);
    var sorted := Sort(NewerOrSame, rows);
    forall i, j | 0 <= i < j < |sorted|
      ensures Older(sorted[j].key, sorted[i].key)
    {
      assert NewerOrSame(sorted[i], sorted[j]) && !SameKey(sorted[i], sorted[j]);
    }
  }

  /** A strictly descending list is determined by its elements. */
  lemma {:induction false} DescendingUnique(s: seq<Row>, t: seq<Row>)
    requires Descending(s) && Descending(t) && forall x :: x in s <==> x in t
    ensures s == t
  {
    if s != [] {
      assert s[0] in t;
    }
    if t != [] {
      assert t[0] in s;
    }
    if s != [] {
      assert s[0] == t[0];
      forall x
        ensures x in s[1..] <==> x in t[1..]
      {
        assert x in s[1..] ==> x in t && x != s[0];
        assert x in t[1..] ==> x in s && x != t[0];
      }
      DescendingUnique(s[1..], t[1..]);
    }
  }

  /**
    A page holds, newest first, exactly the rows before the cursor that are not older than its
    last item; rows are left exactly when it says so, and then it is full.
  */
  lemma {:induction false} ListSpec(rows: seq<Row>, limit: nat, before: Option<Key>)
    requires Separate(SameKey, rows)
    ensures var (items, more) := List(rows, limit, before);
            && Descending(items)
            && more == (|Before(rows, before)| > limit)
            && (more ==> |items| == limit)
            && forall x :: x in items <==>
                 && x in rows && (before.None? || Older(x.key, before.value))
                 && (more ==> limit > 0 && !Older(x.key, items[limit - 1].key))
  {
    var matching := Before(rows, before);
    BeforeSpec(rows, before);
    SortedTable(matching);
    var sorted := Sort(NewerOrSame, matching);
    if |sorted| > limit {
      PrefixNewest(sorted, limit);
      assert List(rows, limit, before).0 == sorted[..limit];
    } else {
      assert List(rows, limit, before).0 == sorted;
    }
  }

  /**
    A page in times and ids: newest first, ids descending at equal times, all strictly before the
    cursor; and what it leaves out is not before the cursor, or is older than its last item.
  */
  lemma PageInTime(rows: seq<Row>, limit: nat, before: Option<Key>, items: seq<Row>, more: bool)
    requires Separate(SameKey, rows) && List(rows, limit, before) == (items, more)
    ensures forall i, j :: 0 <= i < j < |items| ==>
              || items[i].key.at > items[j].key.at
              || (items[i].key.at == items[j].key.at && items[i].key.id > items[j].key.id)
    ensures forall x :: x in items && before.Some? ==>
              || x.key.at < before.value.at
              || (x.key.at == before.value.at && x.key.id < before.value.id)
    ensures more ==> |items| == limit
    ensures forall x :: x in rows && x !in items ==>
              || (before.Some? && x.key.at > before.value.at)
              || (before.Some? && x.key.at == before.value.at && x.key.id >= before.value.id)
              || (more && limit == 0)
              || (more && x.key.at < items[limit - 1].key.at)
              || (more && x.key.at == items[limit - 1].key.at && x.key.id < items[limit - 1].key.id)
  {
    ListSpec(rows, limit, before);
  }

  lemma PrefixNewest(sorted: seq<Row>, limit: nat)
    requires Descending(sorted) && limit < |sorted|
    ensures Descending(sorted[..limit])
    ensures forall x :: x in sorted[..limit] <==>
              x in sorted && limit > 0 && !Older(x.key, sorted[..limit][limit - 1].key)
  {
    var items := sorted[..limit];
    forall k | 0 <= k < limit
      ensures sorted[k] in items
    {
      assert items[k] == sorted[k];
    }
    forall x
      ensures x in items <==> x in sorted && limit > 0 && !Older(x.key, items[limit - 1].key)
    {
      if x in items {
        var i :| 0 <= i < limit && items[i] == x;
        assert sorted[i] == x;
      } else if x in sorted && limit > 0 {
        var i :| 0 <= i < |sorted| && sorted[i] == x;
        assert Older(sorted[i].key, sorted[limit - 1].key);
      }
    }
  }

  /** Without room for a single row a reader learns nothing and is not told to go on. */
  lemma ZeroLimitStops(text: Text, rows: seq<Row>)
    ensures PageOf(text, rows, 0, None) == Ok(Page([], None))
  {
  }

  // ---------- The table and its readers ----------

  predicate Conflict(a: Row, b: Row) {
    a.key.id == b.key.id || a.requestId == b.requestId
  }

  /** The table after an insert that may be refused. */
  function Added(rows: seq<Row>, row: Row): seq<Row> {
    if forall i :: 0 <= i < |rows| ==> !Conflict(rows[i], row) then rows + [row] else rows
  }

  function AddedAll(rows: seq<Row>, batch: seq<Row>): seq<Row> {
    if batch == [] then rows else Added(AddedAll(rows, batch[..|batch| - 1]), batch[|batch| - 1])
  }

  class Table {
    var rows: seq<Row>

    ghost predicate Valid()
      reads this
    {
      Separate(Conflict, rows)
    }

    constructor ()
      ensures Valid() && rows == []
    {
      rows := [];
    }

    /** Inserts a row unless its id or request id is taken. */
    method Insert(row: Row) returns (inserted: bool)
      requires Valid()
      modifies this
      ensures Valid()
      ensures inserted == forall i :: 0 <= i < |old(rows)| ==>
                old(rows)[i].key.id != row.key.id && old(rows)[i].requestId != row.requestId
      ensures rows == if inserted then old(rows) + [row] else old(rows)
    {
      inserted := forall i :: 0 <= i < |rows| ==> !Conflict(rows[i], row);
      if inserted {
        rows := rows + [row];
      }
    }

    method InsertAll(batch: seq<Row>)
      requires Valid()
      modifies this
      ensures Valid() && old(rows) <= rows == AddedAll(old(rows), batch)
    {
      for i := 0 to |batch|
        invariant Valid() && old(rows) <= rows == AddedAll(old(rows), batch[..i])
      {
        assert batch[..i + 1][..i] == batch[..i];
        var _ := Insert(batch[i]);
      }
      assert batch[..|batch|] == batch;
    }
  }

  lemma {:induction false} BeforeShrinks(rows: seq<Row>, before: Option<Key>, last: Row)
    requires last in rows && (before.None? || Older(last.key, before.value))
    ensures |Before(rows, Some(last.key))| < |Before(rows, before)|
  {
    assert rows == [rows[0]] + rows[1..];
    if last in rows[1..] {
      BeforeShrinks(rows[1..], before, last);
    } else {
      BeforeNested(rows[1..], before, last.key);
    }
  }

  lemma {:induction false} BeforeNested(rows: seq<Row>, before: Option<Key>, key: Key)
    requires before.None? || Older(key, before.value)
    ensures |Before(rows, Some(key))| <= |Before(rows, before)|
  {
    if rows != [] {
      BeforeNested(rows[1..], before, key);
    }
  }

  /** What has been read when the cursor stands at `before`: everything from the start that is not older. */
  ghost predicate ReadUpTo(read: seq<Row>, start: seq<Row>, rows: seq<Row>, before: Option<Key>) {
    && Descending(read)
    && (forall x :: x in read ==> x in rows && before.Some? && !Older(x.key, before.value))
    && (forall x :: x in start && before.Some? && !Older(x.key, before.value) ==> x in read)
  }

  ghost predicate ReadAllOf(read: seq<Row>, start: seq<Row>, rows: seq<Row>) {
    Descending(read) && (forall x :: x in start ==> x in read) && (forall x :: x in read ==> x in rows)
  }

  /** Appending the rows between the cursor and the last of them, or all that are left. */
  lemma Appended(read: seq<Row>, start: seq<Row>, rows: seq<Row>, before: Option<Key>, items: seq<Row>,
                 after: Option<Key>)
    requires start <= rows && ReadUpTo(read, start, rows, before) && Descending(items)
    requires forall x :: x in items <==>
               && x in rows && (before.None? || Older(x.key, before.value))
               && (after.Some? ==> !Older(x.key, after.value))
    requires after.Some? && before.Some? ==> Older(after.value, before.value)
    ensures after.None? ==> ReadAllOf(read + items, start, rows)
    ensures after.Some? ==> ReadUpTo(read + items, start, rows, after)
  {
    DescendingConcat(read, items, before);
    forall x | x in start && (after.None? || !Older(x.key, after.value))
      ensures x in read + items
    {
      assert x in rows;
    }
  }

  lemma {:induction false} ReadNext(read: seq<Row>, start: seq<Row>, rows: seq<Row>, before: Option<Key>, limit: nat)
    requires Separate(SameKey, rows) && start <= rows && limit > 0
    requires ReadUpTo(read, start, rows, before)
    ensures var (items, more) := List(rows, limit, before);
            var longer := read + items;
            && (!more ==> ReadAllOf(longer, start, rows))
            && (more ==>
                  && items != []
                  && ReadUpTo(longer, start, rows, Some(items[|items| - 1].key))
                  && |Before(rows, Some(items[|items| - 1].key))| < |Before(rows, before)|)
  {
    var (items, more) := List(rows, limit, before);
    ListSpec(rows, limit, before);
    if more {
      var last := items[limit - 1];
      assert last in items;
      Appended(read, start, rows, before, items, Some(last.key));
      BeforeShrinks(rows, before, last);
    } else {
      Appended(read, start, rows, before, items, None);
    }
  }

  lemma DescendingConcat(read: seq<Row>, items: seq<Row>, before: Option<Key>)
    requires Descending(read) && Descending(items)
    requires forall x :: x in read ==> before.Some? && !Older(x.key, before.value)
    requires forall x :: x in items ==> before.None? || Older(x.key, before.value)
    ensures Descending(read + items)
  {
    forall i, j | 0 <= i < |read| && 0 <= j < |items|
      ensures Older(items[j].key, read[i].key)
    {
      assert read[i] in read && items[j] in items;
    }
  }

  /** Later inserts do not disturb what has been read. */
  lemma TableGrows(read: seq<Row>, start: seq<Row>, rows: seq<Row>, more: seq<Row>, before: Option<Key>)
    requires rows <= more && ReadUpTo(read, start, rows, before)
    ensures ReadUpTo(read, start, more, before)
  {
    assert forall x :: x in rows ==> x in more;
  }

  /** A cursor, or its absence, stands for a key. */
  ghost predicate StandsFor(text: Text, cursor: Option<string>, before: Option<Key>) {
    if cursor.None? then before.None? else before.Some? && DecodeKey(text, cursor.value) == Ok(before.value)
  }

  /** A page is the listing before its cursor, and the cursor it gives stands for its last row. */
  lemma PageSpec(text: Text, rows: seq<Row>, limit: nat, cursor: Option<string>, before: Option<Key>)
    requires Faithful(text) && StandsFor(text, cursor, before)
    ensures var (items, more) := List(rows, limit, before);
            var page := PageOf(text, rows, limit, cursor);
            && page.Ok? && page.value.items == items
            && (page.value.next.Some? <==> more && items != [])
            && (page.value.next.Some? ==> StandsFor(text, page.value.next, Some(items[|items| - 1].key)))
  {
    var (items, more) := List(rows, limit, before);
    NextCursor(text, items);
  }

  lemma NextCursor(text: Text, items: seq<Row>)
    requires Faithful(text)
    ensures items != [] ==> StandsFor(text, Some(EncodeKey(text, items[|items| - 1].key)), Some(items[|items| - 1].key))
  {
    if items != [] {
      KeyRoundTrip(text, items[|items| - 1].key);
    }
  }

  /** Reading has finished, or goes on at `key` with fewer rows to come. */
  ghost predicate Advanced(text: Text, rows: seq<Row>, longer: seq<Row>, start: seq<Row>, before: Option<Key>,
                           next: Option<string>, key: Option<Key>)
  {
    if next.None? then ReadAllOf(longer, start, rows)
    else
      && StandsFor(text, next, key) && ReadUpTo(longer, start, rows, key)
      && |Before(rows, key)| < |Before(rows, before)|
  }

  function LastKey(items: seq<Row>): Option<Key> {
    if items == [] then None else Some(items[|items| - 1].key)
  }

  /** What one more page adds to what has been read. */
  lemma PageRead(text: Text, rows: seq<Row>, limit: nat, read: seq<Row>, start: seq<Row>, before: Option<Key>,
                 items: seq<Row>, more: bool, next: Option<string>)
    requires limit > 0 && Separate(SameKey, rows) && start <= rows && ReadUpTo(read, start, rows, before)
    requires List(rows, limit, before) == (items, more)
    requires next.Some? <==> more && items != []
    requires next.Some? ==> StandsFor(text, next, LastKey(items))
    ensures Advanced(text, rows, read + items, start, before, next, LastKey(items))
  {
    ReadNext(read, start, rows, before, limit);
  }

  /** Reads the page at a cursor and appends it. */
  method ReadPage(text: Text, table: Table, limit: nat, cursor: Option<string>, read: seq<Row>,
                  ghost start: seq<Row>, ghost before: Option<Key>)
    returns (longer: seq<Row>, next: Option<string>, ghost key: Option<Key>)
    requires Faithful(text) && StandsFor(text, cursor, before) && limit > 0
    requires table.Valid() && start <= table.rows && ReadUpTo(read, start, table.rows, before)
    ensures Advanced(text, table.rows, longer, start, before, next, key)
  {
    ghost var (items, more) := List(table.rows, limit, before);
    PageSpec(text, table.rows, limit, cursor, before);
    var page := PageOf(text, table.rows, limit, cursor).value;
    PageRead(text, table.rows, limit, read, start, before, items, more, page.next);
    longer, next, key := read + page.items, page.next, LastKey(page.items);
  }

  /**
    Follows cursors from the first page until none is given, while `batches[i]` is inserted after
    page i. What is read is strictly descending, contains every row that was there at the start
    and nothing that is not in the table; of a table that does not change it is the whole, newest
    first.
  */
  method ReadAll(text: Text, table: Table, limit: nat, batches: seq<seq<Row>>) returns (read: seq<Row>)
    requires Faithful(text) && table.Valid() && limit > 0
    modifies table
    ensures table.Valid() && old(table.rows) <= table.rows
    ensures Descending(read)
    ensures forall i, j :: 0 <= i < j < |read| ==>
              || read[i].key.at > read[j].key.at
              || (read[i].key.at == read[j].key.at && read[i].key.id > read[j].key.id)
    ensures forall x :: x in old(table.rows) ==> x in read
    ensures forall x :: x in read ==> x in table.rows
    ensures (forall i :: 0 <= i < |batches| ==> batches[i] == []) ==> read == Sort(NewerOrSame, old(table.rows))
  {
    read := [];
    ghost var start := table.rows;
    ghost var quiet := forall i :: 0 <= i < |batches| ==> batches[i] == [];
    var cursor: Option<string> := None;
    ghost var before: Option<Key> := None;
    var page, reading := 0, true;
    while reading
      invariant table.Valid() && start <= table.rows
      invariant quiet ==> table.rows == start
      invariant reading ==> ReadUpTo(read, start, table.rows, before) && StandsFor(text, cursor, before)
      invariant !reading ==> ReadAllOf(read, start, table.rows)
      decreases reading, if page < |batches| then |batches| - page else 0, |Before(table.rows, before)|
    {
      read, cursor, before := ReadPage(text, table, limit, cursor, read, start, before);
      if cursor.None? {
        reading := false;
      } else if page < |batches| {
        ghost var rows := table.rows;
        table.InsertAll(batches[page]);
        TableGrows(read, start, rows, table.rows, before);
        page := page + 1;
      }
    }
    if quiet {
      assert Separate(SameKey, table.rows);
      SortedTable(table.rows);
      DescendingUnique(read, Sort(NewerOrSame, table.rows));
    }
  }
}
