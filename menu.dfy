/** Tomorrow's menu, as `get_daily_menu` extracts it from the vendor page,
    and the meal picker `build_order_modal_view` builds from it.

    The page is given already parsed: the `h2` headings in document order,
    each with the text BeautifulSoup's `.string` gives it (None when the
    heading has nested markup) and the `table-menu` table that follows it
    as a sibling, if any; a table is its `tr` rows, a row its `td` cells,
    each cell's text already stripped. Downloading and parsing the page is
    not modelled: a failed download is `FetchFailed`. */
module Menu {
  import opened Decimal
  import opened Text
  import opened Dates

  /** `TARGET_PRICE` when the environment does not set it. */
  const DefaultTargetPrice := 125

  const Currency := "Kč"

  type Row = seq<string>

  datatype Heading = Heading(text: Option<string>, menuTable: Option<seq<Row>>)

  datatype Page = Page(headings: seq<Heading>)

  datatype Fetch = Fetched(page: Page) | FetchFailed

  /** The four ways `get_daily_menu` reports that there is nothing to offer. */
  datatype MenuError =
    | NotYetAvailable       // no heading holds tomorrow's date
    | TableNotFound         // the heading has no menu table after it
    | NoDishAtPrice(price: int)  // the table lists nothing at the target price
    | Failure               // any exception: download, HTTP status, date overflow

  /** The dish names, or why there are none; the source returns either a
      list or an error string. */
  datatype MenuResult = Ok(dishes: seq<string>) | Err(error: MenuError)

  /** The Czech message the source returns in place of a dish list. */
  function ErrorText(e: MenuError): (s: string)
    ensures |s| > 0
    ensures e.NoDishAtPrice? <==> |s| > |NoDishPrefix| && s[..|NoDishPrefix|] == NoDishPrefix
  {
    match e
    case NotYetAvailable => "Menu na zítra ještě není k dispozici. \U{1F641}"
    case TableNotFound => "Chyba: Tabulka s menu nebyla nalezena."
    case NoDishAtPrice(p) => NoDishPrefix + IntToString(p) + NoDishSuffix
    case Failure => "Došlo k závažné chybě při stahování menu."
  }

  const NoDishPrefix := "Na zítra bohužel není v nabídce žádné jídlo za "
  const NoDishSuffix := " Kč."

  lemma InfixCancel(p: string, x: string, y: string, s: string)
    requires p + x + s == p + y + s
    ensures x == y
  {
    var t := p + x + s;
    assert |x| == |y|;
    assert x == t[|p|..|p| + |x|];
    assert y == (p + y + s)[|p|..|p| + |y|];
  }

  /** Different outcomes give different messages, so a caller reading the
      message knows which error it was (and, for the price, which price). */
  lemma ErrorTextInjective(e1: MenuError, e2: MenuError)
    requires ErrorText(e1) == ErrorText(e2)
    ensures e1 == e2
  {
    if e1.NoDishAtPrice? && e2.NoDishAtPrice? {
      InfixCancel(NoDishPrefix, IntToString(e1.price), IntToString(e2.price), NoDishSuffix);
      IntToStringInjective(e1.price, e2.price);
    }
  }

  /** `int(price_text.replace('Kč', '').strip())`, None where that raises.
      PriceNeedsDigit and PriceWithCurrency state what it reads. */
  function ParsePrice(priceText: string): Option<int> {
    ParseInt(Strip(RemoveAll(priceText, Currency)))
  }

  lemma StripKeepsChars(s: string, k: nat)
    requires k < |Strip(s)|
    ensures Strip(s)[k] in s
  {
    var r := Strip(s);
    var i :| Trims(s, i, r);
    assert r[k] == s[i + k];
  }

  lemma {:induction false} RemoveAllKeepsChars(s: string, p: string, c: char)
    requires p != []
    requires c in RemoveAll(s, p)
    ensures c in s
    decreases |s|
  {
    if |s| >= |p| && s[..|p|] == p {
      RemoveAllKeepsChars(s[|p|..], p, c);
    } else if s != [] && c != s[0] {
      RemoveAllKeepsChars(s[1..], p, c);
    }
  }

  /** A price written as a number, optionally spaced, then the currency,
      reads as that number. */
  lemma PriceWithCurrency(n: int, w: string)
    requires AllSpace(w)
    ensures ParsePrice(IntToString(n) + w + Currency) == Some(n)
  {
    var num := IntToString(n);
    var s := num + w;
    assert forall i :: 0 <= i < |s| ==> s[i] != Currency[0];
    RemoveAllKeepsPrefix(s, Currency, Currency);
    assert RemoveAll(Currency, Currency) == [];
    assert s + [] == s;
    assert !IsSpace(num[0]) && !IsSpace(num[|num| - 1]);
    StripTrailingSpace(num, w);
    IntRoundTrip(n);
  }

  /** A price cell without a single digit never parses: such a row is
      skipped, not counted as 0. */
  lemma PriceNeedsDigit(priceText: string)
    ensures ParsePrice(priceText).Some? ==>
      exists i :: 0 <= i < |priceText| && IsDigit(priceText[i])
  {
    var clean := Strip(RemoveAll(priceText, Currency));
    if ParseInt(clean).Some? {
      var k := if clean[0] == '+' || clean[0] == '-' then 1 else 0;
      assert IsDigit(clean[k]);
      StripKeepsChars(RemoveAll(priceText, Currency), k);
      RemoveAllKeepsChars(priceText, Currency, clean[k]);
    }
  }

  /** A table row offers a dish at `price`: exactly three cells, and the
      third, read as a price, equals `price`. */
  predicate Qualifies(row: Row, price: int) {
    |row| == 3 && ParsePrice(row[2]) == Some(price)
  }

  /** The names (second cell) of the qualifying rows, in document order,
      duplicates kept. */
  function Dishes(rows: seq<Row>, price: int): (r: seq<string>)
    ensures |r| <= |rows|
  {
    if rows == [] then []
    else
      var last := rows[|rows| - 1];
      Dishes(rows[..|rows| - 1], price) + (if Qualifies(last, price) then [last[1]] else [])
  }

  /** The row loop of `get_daily_menu`: append the name of every row that
      qualifies, skip the rest. */
  method CollectDishes(rows: seq<Row>, price: int) returns (items: seq<string>)
    ensures items == Dishes(rows, price)
  {
    items := [];
    var i := 0;
    while i < |rows|
      invariant 0 <= i <= |rows|
      invariant items == Dishes(rows[..i], price)
    {
      var cols := rows[i];
      if |cols| == 3 {
        var name := cols[1];
        var priceAsInt := ParsePrice(cols[2]);
        if priceAsInt == Some(price) {
          items := items + [name];
        }
      }
      DishesStep(rows, i, price);
      i := i + 1;
    }
    assert rows[..|rows|] == rows;
  }

  lemma DishesStep(rows: seq<Row>, i: nat, price: int)
    requires i < |rows|
    ensures Dishes(rows[..i + 1], price) ==
      Dishes(rows[..i], price) + (if Qualifies(rows[i], price) then [rows[i][1]] else [])
  {
    assert rows[..i + 1][..i] == rows[..i];
  }

  /** Dish lists of consecutive parts of a table concatenate: each row's
      contribution depends on that row alone and keeps its place. */
  lemma {:induction false} DishesAppend(a: seq<Row>, b: seq<Row>, price: int)
    ensures Dishes(a + b, price) == Dishes(a, price) + Dishes(b, price)
    decreases |b|
  {
    if b == [] {
      assert a + b == a;
    } else {
      var b' := b[..|b| - 1];
      assert (a + b)[..|a + b| - 1] == a + b';
      DishesAppend(a, b', price);
    }
  }

  /** A row that does not qualify (wrong cell count, unreadable price, other
      price) leaves the dish list as it was without it. */
  lemma DishesSkipRow(a: seq<Row>, row: Row, b: seq<Row>, price: int)
    requires !Qualifies(row, price)
    ensures Dishes(a + [row] + b, price) == Dishes(a + b, price)
  {
    DishesAppend(a + [row], b, price);
    DishesAppend(a, [row], price);
    DishesAppend(a, b, price);
    assert [row][..0] == [];
  }

  /** The positions holding `true`, in increasing order. */
  function TrueIndexes(marks: seq<bool>): (idx: seq<nat>)
    ensures forall k :: 0 <= k < |idx| ==> idx[k] < |marks| && marks[idx[k]]
    ensures forall k, l :: 0 <= k < l < |idx| ==> idx[k] < idx[l]
  {
    if marks == [] then []
    else
      var n := |marks| - 1;
      var pre := TrueIndexes(marks[..n]);
      var idx := pre + (if marks[n] then [n] else []);
      assert forall k :: 0 <= k < |pre| ==> idx[k] == pre[k] && marks[..n][pre[k]] == marks[pre[k]];
      idx
  }

  lemma {:induction false} TrueIndexesComplete(marks: seq<bool>, i: nat)
    requires i < |marks| && marks[i]
    ensures i in TrueIndexes(marks)
  {
    var n := |marks| - 1;
    if i < n {
      assert marks[..n][i] == marks[i];
      TrueIndexesComplete(marks[..n], i);
    }
  }

  /** Which rows of a table qualify. */
  function RowMarks(rows: seq<Row>, price: int): (m: seq<bool>)
    ensures |m| == |rows|
    ensures forall i :: 0 <= i < |rows| ==> m[i] == Qualifies(rows[i], price)
  {
    seq(|rows|, i requires 0 <= i < |rows| => Qualifies(rows[i], price))
  }

  /** The indexes of the qualifying rows, all of them, in increasing order. */
  function QualifyingRows(rows: seq<Row>, price: int): (idx: seq<nat>)
    ensures forall k :: 0 <= k < |idx| ==> idx[k] < |rows| && Qualifies(rows[idx[k]], price)
    ensures forall k, l :: 0 <= k < l < |idx| ==> idx[k] < idx[l]
  {
    TrueIndexes(RowMarks(rows, price))
  }

  /** Every qualifying row is listed. */
  lemma QualifyingRowsComplete(rows: seq<Row>, price: int, i: nat)
    requires i < |rows| && Qualifies(rows[i], price)
    ensures i in QualifyingRows(rows, price)
  {
    TrueIndexesComplete(RowMarks(rows, price), i);
  }

  /** The second cells of the rows whose mark is set, in row order. */
  function Picked(rows: seq<Row>, marks: seq<bool>): seq<string>
    requires |marks| == |rows|
    requires forall i :: 0 <= i < |rows| && marks[i] ==> |rows[i]| >= 2
  {
    if rows == [] then []
    else
      var n := |rows| - 1;
      Picked(rows[..n], marks[..n]) + (if marks[n] then [rows[n][1]] else [])
  }

  lemma {:induction false} PickedAtTrueIndexes(rows: seq<Row>, marks: seq<bool>)
    requires |marks| == |rows|
    requires forall i :: 0 <= i < |rows| && marks[i] ==> |rows[i]| >= 2
    ensures |Picked(rows, marks)| == |TrueIndexes(marks)|
    ensures forall k :: 0 <= k < |Picked(rows, marks)| ==>
      Picked(rows, marks)[k] == rows[TrueIndexes(marks)[k]][1]
  {
    if rows != [] {
      var n := |rows| - 1;
      PickedAtTrueIndexes(rows[..n], marks[..n]);
      var pre := TrueIndexes(marks[..n]);
      assert forall k :: 0 <= k < |pre| ==> rows[..n][pre[k]] == rows[pre[k]];
    }
  }

  lemma {:induction false} DishesArePicked(rows: seq<Row>, price: int)
    ensures Dishes(rows, price) == Picked(rows, RowMarks(rows, price))
  {
    if rows != [] {
      var n := |rows| - 1;
      DishesArePicked(rows[..n], price);
      assert RowMarks(rows, price)[..n] == RowMarks(rows[..n], price);
    }
  }

  /** The dish list is the second cell of each qualifying row, one entry
      per row, in the order the rows appear. */
  lemma DishesAreQualifyingNames(rows: seq<Row>, price: int)
    ensures |Dishes(rows, price)| == |QualifyingRows(rows, price)|
    ensures forall k :: 0 <= k < |Dishes(rows, price)| ==>
      Dishes(rows, price)[k] == rows[QualifyingRows(rows, price)[k]][1]
  {
    DishesArePicked(rows, price);
    PickedAtTrueIndexes(rows, RowMarks(rows, price));
  }

  /** What `soup.find('h2', string=...)` tests, as written: the heading has
      text and the date string occurs anywhere in it. */
  predicate HeadingContains(h: Heading, key: string) {
    h.text.Some? && h.text.value != [] && HasSubstring(h.text.value, key)
  }

  /** A date found at index `i` is not the tail of a longer number or date:
      the text before it does not end in a digit or a dot. */
  predicate DateStartsAt(hay: string, i: int) {
    i == 0 || (0 < i <= |hay| && !IsDigit(hay[i - 1]) && hay[i - 1] != '.')
  }

  /** The date string `key` occurs at or after `i` as a whole date. */
  function ContainsDateFrom(hay: string, key: string, i: nat): (b: bool)
    requires i <= |hay|
    ensures b <==> exists j :: i <= j && OccursAt(hay, key, j) && DateStartsAt(hay, j)
    decreases |hay| - i
  {
    if i + |key| > |hay| then false
    else if hay[i..i + |key|] == key && DateStartsAt(hay, i) then
      assert OccursAt(hay, key, i);
      true
    else if i == |hay| then false
    else ContainsDateFrom(hay, key, i + 1)
  }

  /** The header test the model uses: the heading has text and holds the
      date string as a whole date, not inside a longer one. */
  predicate HeadingMatches(h: Heading, key: string) {
    h.text.Some? && h.text.value != [] && ContainsDateFrom(h.text.value, key, 0)
  }

  /** Text that holds neither digits nor dots, such as a weekday name. */
  predicate NoDateChars(s: string) {
    forall k :: 0 <= k < |s| ==> !IsDigit(s[k]) && s[k] != '.'
  }

  /** The substring test accepts other days: tomorrow's string for day
      `dd` (1 to 9) lies inside the header of day `10 * t + dd` of the same
      month, so a page whose first dated heading is that later day is read
      as tomorrow's menu. The whole-date test rejects that heading. */
  lemma SubstringMatchesOtherDay(w: string, y: int, mo: int, t: int, dd: int, table: Option<seq<Row>>)
    requires NoDateChars(w)
    requires 1 <= t <= 3 && 1 <= dd <= 9
    requires ValidDate(Date(y, mo, dd)) && ValidDate(Date(y, mo, 10 * t + dd))
    ensures var h := Heading(Some(w + HeaderDate(Date(y, mo, 10 * t + dd))), table);
      && HeadingContains(h, HeaderDate(Date(y, mo, dd)))
      && !HeadingMatches(h, HeaderDate(Date(y, mo, dd)))
  {
    var later := Date(y, mo, 10 * t + dd);
    HeaderOfLaterDay(y, mo, t, dd);
    OccursAfterOneChar(w, DigitChar(t), HeaderDate(Date(y, mo, dd)));
    HeadingMatchesExactlyItsDate(w, later, [], Date(y, mo, dd), table);
    assert w + HeaderDate(later) + [] == w + HeaderDate(later);
  }

  /** The header of day `10 * t + dd` is one digit followed by the header
      of day `dd` of the same month. */
  lemma HeaderOfLaterDay(y: int, mo: int, t: int, dd: int)
    requires 1 <= t <= 3 && 1 <= dd <= 9
    requires ValidDate(Date(y, mo, dd)) && ValidDate(Date(y, mo, 10 * t + dd))
    ensures HeaderDate(Date(y, mo, 10 * t + dd)) == [DigitChar(t)] + HeaderDate(Date(y, mo, dd))
  {
    var tail := HeaderTail(mo, y);
    HeaderDateParts(Date(y, mo, 10 * t + dd));
    HeaderDateParts(Date(y, mo, dd));
    TwoDigitDay(t, dd);
    assert NatToString(dd) == [DigitChar(dd)];
    assert [DigitChar(t)] + [DigitChar(dd)] + tail == [DigitChar(t)] + ([DigitChar(dd)] + tail);
  }

  lemma TwoDigitDay(t: int, dd: int)
    requires 1 <= t <= 9 && 0 <= dd <= 9
    ensures NatToString(10 * t + dd) == [DigitChar(t)] + [DigitChar(dd)]
  {
    assert (10 * t + dd) / 10 == t && (10 * t + dd) % 10 == dd;
  }

  lemma OccursAfterOneChar(w: string, c: char, key: string)
    ensures OccursAt(w + ([c] + key), key, |w| + 1)
  {
    var hay := w + ([c] + key);
    assert hay[|w| + 1..|w| + 1 + |key|] == key;
  }

  /** Text made of digits and dots, as a header string is. */
  predicate DateChars(s: string) {
    forall k :: 0 <= k < |s| ==> IsDigit(s[k]) || s[k] == '.'
  }

  /** Between texts without digits or dots, a string that starts with a
      digit occurs as a whole date only where the date text begins. */
  lemma WholeDateOnlyAtStart(w: string, s: string, z: string, key: string, j: int)
    requires NoDateChars(w) && DateChars(s) && NoDateChars(z)
    requires key != [] && IsDigit(key[0])
    requires OccursAt(w + s + z, key, j) && DateStartsAt(w + s + z, j)
    ensures j == |w|
  {
    var hay := w + s + z;
    assert hay[j] == hay[j..j + |key|][0] == key[0];
  }

  lemma OccursAtStartSplit(w: string, s: string, key: string)
    requires OccursAt(w + s, key, |w|)
    ensures s == key + s[|key|..]
  {
    assert (w + s)[|w|..|w| + |key|] == s[..|key|];
  }

  lemma OccursAfterPrefix(w: string, key: string, x: string)
    ensures OccursAt(w + (key + x), key, |w|)
  {
    assert (w + (key + x))[|w|..|w| + |key|] == key;
  }

  /** A heading that is a date between texts without digits or dots
      matches its own date string. */
  lemma HeadingMatchesOwnDate(w: string, e: Date, z: string, table: Option<seq<Row>>)
    requires NoDateChars(w) && ValidDate(e)
    ensures HeadingMatches(Heading(Some(w + HeaderDate(e) + z), table), HeaderDate(e))
  {
    var he := HeaderDate(e);
    assert w + he + z == w + (he + z);
    OccursAfterPrefix(w, he, z);
    assert DateStartsAt(w + he + z, |w|);
  }

  /** Between texts without digits or dots, a whole-date occurrence of a
      string starting with a digit is a prefix of the date text onwards. */
  lemma WholeDatePrefix(w: string, s: string, z: string, key: string)
    requires NoDateChars(w) && DateChars(s) && NoDateChars(z)
    requires key != [] && IsDigit(key[0])
    requires ContainsDateFrom(w + s + z, key, 0)
    ensures s + z == key + (s + z)[|key|..]
  {
    var j :| 0 <= j && OccursAt(w + s + z, key, j) && DateStartsAt(w + s + z, j);
    WholeDateOnlyAtStart(w, s, z, key, j);
    assert w + s + z == w + (s + z);
    OccursAtStartSplit(w, s + z, key);
  }

  /** ... and no other date's string. */
  lemma HeadingMatchesOnlyOwnDate(w: string, e: Date, z: string, d: Date, table: Option<seq<Row>>)
    requires NoDateChars(w) && NoDateChars(z)
    requires ValidDate(e) && ValidDate(d)
    requires HeadingMatches(Heading(Some(w + HeaderDate(e) + z), table), HeaderDate(d))
    ensures d == e
  {
    var hd, he := HeaderDate(d), HeaderDate(e);
    assert DateChars(he);
    WholeDatePrefix(w, he, z, hd);
    HeaderDatePrefixFree(d, e, (he + z)[|hd|..], z);
  }

  /** The whole-date test picks exactly the heading's own date: for a
      heading that is a date between texts without digits or dots (a
      weekday name, a note), it matches tomorrow's string if and only if
      the heading's date is tomorrow. */
  lemma HeadingMatchesExactlyItsDate(w: string, e: Date, z: string, d: Date, table: Option<seq<Row>>)
    requires NoDateChars(w) && NoDateChars(z)
    requires ValidDate(e) && ValidDate(d)
    ensures HeadingMatches(Heading(Some(w + HeaderDate(e) + z), table), HeaderDate(d)) <==> d == e
  {
    if d == e {
      HeadingMatchesOwnDate(w, e, z, table);
    } else if HeadingMatches(Heading(Some(w + HeaderDate(e) + z), table), HeaderDate(d)) {
      HeadingMatchesOnlyOwnDate(w, e, z, d, table);
    }
  }

  /** Which header test the search applies: `Substring` is the plain `in`
      test main.py uses, `WholeDate` the corrected one. */
  datatype HeaderTest = Substring | WholeDate

  predicate Passes(test: HeaderTest, h: Heading, key: string) {
    match test
    case Substring => HeadingContains(h, key)
    case WholeDate => HeadingMatches(h, key)
  }

  /** The first heading, from index `from` on, that passes `test` for `key`. */
  function FindHeading(hs: seq<Heading>, key: string, test: HeaderTest, from: nat): (r: Option<nat>)
    requires from <= |hs|
    ensures r.Some? ==> from <= r.value < |hs| && Passes(test, hs[r.value], key)
    ensures r.Some? ==> forall j :: from <= j < r.value ==> !Passes(test, hs[j], key)
    ensures r.None? ==> forall j :: from <= j < |hs| ==> !Passes(test, hs[j], key)
    decreases |hs| - from
  {
    if from == |hs| then None
    else if Passes(test, hs[from], key) then Some(from)
    else FindHeading(hs, key, test, from + 1)
  }

  /** `get_daily_menu()` run on `today` against the downloaded page, with
      the header search done by `test` (`Substring` is main.py as written). */
  function DailyMenu(fetch: Fetch, today: Date, price: int, test: HeaderTest): (r: MenuResult)
    requires ValidDate(today)
    ensures r.Ok? ==> r.dishes != []
  {
    match fetch
    case FetchFailed => Err(Failure)
    case Fetched(page) =>
      match AddDay(today)
      case None => Err(Failure)
      case Some(tomorrow) =>
        match FindHeading(page.headings, HeaderDate(tomorrow), test, 0)
        case None => Err(NotYetAvailable)
        case Some(i) =>
          match page.headings[i].menuTable
          case None => Err(TableNotFound)
          case Some(rows) =>
            var dishes := Dishes(rows, price);
            if dishes == [] then Err(NoDishAtPrice(price)) else Ok(dishes)
  }

  /** `get_daily_menu` step by step, the row loop included. */
  method GetDailyMenu(fetch: Fetch, today: Date, price: int, test: HeaderTest) returns (r: MenuResult)
    requires ValidDate(today)
    ensures r == DailyMenu(fetch, today, price, test)
  {
    if fetch.FetchFailed? {
      return Err(Failure);
    }
    var tomorrow := AddDay(today);
    if tomorrow.None? {
      return Err(Failure);
    }
    var targetDateString := HeaderDate(tomorrow.value);
    var header := FindHeading(fetch.page.headings, targetDateString, test, 0);
    if header.None? {
      return Err(NotYetAvailable);
    }
    var menuTable := fetch.page.headings[header.value].menuTable;
    if menuTable.None? {
      return Err(TableNotFound);
    }
    var menuItems := CollectDishes(menuTable.value, price);
    if menuItems == [] {
      return Err(NoDishAtPrice(price));
    }
    return Ok(menuItems);
  }

  /** A dish list comes from the first heading that passes the header test
      for the date string of the day after `today` (one ordinal day later),
      and it is exactly the qualifying rows of the table under that heading. */
  lemma MenuIsTomorrows(fetch: Fetch, today: Date, price: int, test: HeaderTest)
    requires ValidDate(today)
    requires DailyMenu(fetch, today, price, test).Ok?
    ensures fetch.Fetched? && AddDay(today).Some?
    ensures var t := AddDay(today).value;
      && Ordinal(t) == Ordinal(today) + 1
      && exists i :: (0 <= i < |fetch.page.headings|
        && Passes(test, fetch.page.headings[i], HeaderDate(t))
        && (forall j :: 0 <= j < i ==> !Passes(test, fetch.page.headings[j], HeaderDate(t)))
        && fetch.page.headings[i].menuTable.Some?
        && DailyMenu(fetch, today, price, test).dishes == Dishes(fetch.page.headings[i].menuTable.value, price))
  {
    AddDayOrdinal(today);
    var t := AddDay(today).value;
    var i := FindHeading(fetch.page.headings, HeaderDate(t), test, 0).value;
    assert Passes(test, fetch.page.headings[i], HeaderDate(t));
  }

  /** The converse: once tomorrow's first matching heading is known, its
      table decides the outcome — no table, no dish at the price, or the
      qualifying dishes. */
  lemma FirstMatchDecides(fetch: Fetch, today: Date, price: int, test: HeaderTest, i: int)
    requires ValidDate(today) && fetch.Fetched? && AddDay(today).Some?
    requires 0 <= i < |fetch.page.headings|
    requires Passes(test, fetch.page.headings[i], HeaderDate(AddDay(today).value))
    requires forall j :: 0 <= j < i ==> !Passes(test, fetch.page.headings[j], HeaderDate(AddDay(today).value))
    ensures fetch.page.headings[i].menuTable.None? ==>
      DailyMenu(fetch, today, price, test) == Err(TableNotFound)
    ensures fetch.page.headings[i].menuTable.Some? ==>
      var dishes := Dishes(fetch.page.headings[i].menuTable.value, price);
      DailyMenu(fetch, today, price, test) == (if dishes == [] then Err(NoDishAtPrice(price)) else Ok(dishes))
  {
    var r := FindHeading(fetch.page.headings, HeaderDate(AddDay(today).value), test, 0);
    assert r == Some(i);
  }

  /** "Not yet available" is reported exactly when the page was fetched and
      no heading passes the header test for tomorrow's date string. */
  lemma NotYetAvailableExactly(fetch: Fetch, today: Date, price: int, test: HeaderTest)
    requires ValidDate(today)
    ensures DailyMenu(fetch, today, price, test) == Err(NotYetAvailable) <==>
      && fetch.Fetched? && AddDay(today).Some?
      && forall j :: 0 <= j < |fetch.page.headings| ==>
           !Passes(test, fetch.page.headings[j], HeaderDate(AddDay(today).value))
  {
    if fetch.Fetched? && AddDay(today).Some? {
      var hs := fetch.page.headings;
      var key := HeaderDate(AddDay(today).value);
      var r := FindHeading(hs, key, test, 0);
      if r.Some? {
        assert !Passes(test, hs[r.value], key) ==> false;
      }
    }
  }

  /** The generic failure covers exactly a failed download and the date
      overflow past 31 December 9999. */
  lemma FailureExactly(fetch: Fetch, today: Date, price: int, test: HeaderTest)
    requires ValidDate(today)
    ensures DailyMenu(fetch, today, price, test) == Err(Failure) <==>
      fetch.FetchFailed? || today == Date(MaxYear, 12, 31)
  {
  }

  /** The finding at the level of the whole outcome: when tomorrow is day
      `dd` (1 to 9) and the page's only heading is day `10 * t + dd` of the
      same month, main.py's search serves that table as tomorrow's menu,
      while the corrected search reports it as not yet available. */
  lemma SubstringServesOtherDaysMenu(today: Date, w: string, t: int, rows: seq<Row>, price: int)
    requires ValidDate(today) && AddDay(today).Some? && NoDateChars(w)
    requires 1 <= t <= 3 && 1 <= AddDay(today).value.day <= 9
    requires ValidDate(Date(AddDay(today).value.year, AddDay(today).value.month, 10 * t + AddDay(today).value.day))
    ensures var d := AddDay(today).value;
      var fetch := Fetched(Page([Heading(Some(w + HeaderDate(Date(d.year, d.month, 10 * t + d.day))), Some(rows))]));
      && DailyMenu(fetch, today, price, Substring) ==
           (if Dishes(rows, price) == [] then Err(NoDishAtPrice(price)) else Ok(Dishes(rows, price)))
      && DailyMenu(fetch, today, price, WholeDate) == Err(NotYetAvailable)
  {
    var d := AddDay(today).value;
    var h := Heading(Some(w + HeaderDate(Date(d.year, d.month, 10 * t + d.day))), Some(rows));
    var fetch := Fetched(Page([h]));
    SubstringMatchesOtherDay(w, d.year, d.month, t, d.day, Some(rows));
    FirstMatchDecides(fetch, today, price, Substring, 0);
    NotYetAvailableExactly(fetch, today, price, WholeDate);
  }

  /** Holding a date as a whole date is a special case of holding it. */
  lemma WholeDateIsSubstring(h: Heading, key: string)
    requires HeadingMatches(h, key)
    ensures HeadingContains(h, key)
  {
    var j :| 0 <= j && OccursAt(h.text.value, key, j) && DateStartsAt(h.text.value, j);
  }

  /** The two searches pick the same heading as long as no heading holds
      the date string only right after a digit or a dot. */
  lemma {:induction false} SearchesAgree(hs: seq<Heading>, key: string, from: nat)
    requires from <= |hs|
    requires forall j :: from <= j < |hs| ==> (HeadingContains(hs[j], key) ==> HeadingMatches(hs[j], key))
    ensures FindHeading(hs, key, Substring, from) == FindHeading(hs, key, WholeDate, from)
    decreases |hs| - from
  {
    if from < |hs| {
      if HeadingMatches(hs[from], key) {
        WholeDateIsSubstring(hs[from], key);
      } else {
        SearchesAgree(hs, key, from + 1);
      }
    }
  }

  /** main.py's outcome and the corrected one coincide on every page where
      tomorrow's date string never follows a digit or a dot in a heading. */
  lemma TestsAgree(fetch: Fetch, today: Date, price: int)
    requires ValidDate(today) && fetch.Fetched? && AddDay(today).Some?
    requires forall j :: 0 <= j < |fetch.page.headings| ==>
      (HeadingContains(fetch.page.headings[j], HeaderDate(AddDay(today).value)) ==>
       HeadingMatches(fetch.page.headings[j], HeaderDate(AddDay(today).value)))
    ensures DailyMenu(fetch, today, price, Substring) == DailyMenu(fetch, today, price, WholeDate)
  {
    SearchesAgree(fetch.page.headings, HeaderDate(AddDay(today).value), 0);
  }

  lemma ExampleShownPrices()
    ensures NatToString(120) == "120" && NatToString(125) == "125"
  {
  }

  lemma ExamplePriceTexts()
    ensures IntToString(120) + " " + Currency == "120 Kč"
    ensures IntToString(125) + " " + Currency == "125 Kč"
  {
    ExampleShownPrices();
  }

  lemma ExamplePrices()
    ensures ParsePrice("120 Kč") == Some(120)
    ensures ParsePrice("125 Kč") == Some(125)
  {
    ExamplePriceTexts();
    PriceWithCurrency(120, " ");
    PriceWithCurrency(125, " ");
  }

  /** Two dishes, one at 120 and one at 125: only the latter is offered. */
  lemma ExampleTable()
    ensures Dishes([["1", "Guláš", "120 Kč"], ["2", "Svíčková", "125 Kč"]], DefaultTargetPrice)
      == ["Svíčková"]
  {
    var r1: Row := ["1", "Guláš", "120 Kč"];
    var r2: Row := ["2", "Svíčková", "125 Kč"];
    ExamplePrices();
    assert !Qualifies(r1, DefaultTargetPrice) && Qualifies(r2, DefaultTargetPrice);
    var rows := [r1, r2];
    assert rows[..1] == [r1];
    assert [r1][..0] == [];
    assert Dishes([r1], DefaultTargetPrice) == [];
    assert Dishes(rows, DefaultTargetPrice) == Dishes([r1], DefaultTargetPrice) + [r2[1]];
  }

  /** One option of the meal picker: what it shows and what it submits. */
  datatype SelectOption = SelectOption(text: string, value: string)

  datatype ModalView = ModalView(callbackId: string, options: seq<SelectOption>)

  /** `build_order_modal_view`: one option per dish, in menu order, showing
      and submitting the dish name. */
  function BuildOrderModalView(menuItems: seq<string>): (v: ModalView)
    ensures v.callbackId == "order_submission"
    ensures |v.options| == |menuItems|
    ensures forall i :: 0 <= i < |menuItems| ==>
      v.options[i].text == menuItems[i] && v.options[i].value == menuItems[i]
  {
    ModalView("order_submission",
      seq(|menuItems|, i requires 0 <= i < |menuItems| => SelectOption(menuItems[i], menuItems[i])))
  }

  /** The values a picker submits, in option order. */
  function OptionValues(options: seq<SelectOption>): seq<string> {
    if options == [] then [] else [options[0].value] + OptionValues(options[1..])
  }

  /** Whatever the user picks is one of the menu's dishes, and every dish
      can be picked: the picker's values are the menu. */
  lemma {:induction false} ModalValuesAreMenu(menuItems: seq<string>)
    ensures OptionValues(BuildOrderModalView(menuItems).options) == menuItems
    decreases |menuItems|
  {
    if menuItems != [] {
      var opts := BuildOrderModalView(menuItems).options;
      assert opts[1..] == BuildOrderModalView(menuItems[1..]).options;
      ModalValuesAreMenu(menuItems[1..]);
      assert [menuItems[0]] + menuItems[1..] == menuItems;
    }
  }
}
