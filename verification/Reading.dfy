/** Reading back what was drawn: the address round trip, and what the tag box of a rewritten page says. */
module Reading {
  import opened Wrappers
  import opened Geometry
  import opened Documents
  import opened Text
  import opened Layout
  import opened Libraries
  import opened Extraction
  import opened Validation
  import opened Rewriting

  // ---- Rows of drawn words ----

  function DropEmpty(rows: seq<seq<Word>>): (r: seq<seq<Word>>)
    ensures forall i :: 0 <= i < |r| ==> r[i] != [] && r[i] in rows
  {
    if rows == [] then []
    else if rows[0] == [] then DropEmpty(rows[1..])
    else [rows[0]] + DropEmpty(rows[1..])
  }

  /** Each row on a line of its own, later rows on later lines. */
  ghost predicate OrderedRows(rows: seq<seq<Word>>) {
    && (forall i, j, w, v :: 0 <= i < j < |rows| && w in rows[i] && v in rows[j] ==> LineLt(LineKey(w), LineKey(v)))
    && (forall i :: 0 <= i < |rows| ==> OrderedRow(rows[i]))
  }

  ghost predicate OrderedRow(row: seq<Word>) {
    forall a, b :: 0 <= a < b < |row| ==> LineKey(row[a]) == LineKey(row[b]) && row[a].word < row[b].word
  }

  lemma OrderedTail(rows: seq<seq<Word>>)
    requires OrderedRows(rows) && rows != []
    ensures OrderedRows(rows[1..])
    ensures forall row, w, v :: row in rows[1..] && w in rows[0] && v in row ==> LineLt(LineKey(w), LineKey(v))
  {
    assert forall i :: 0 <= i < |rows[1..]| ==> rows[1..][i] == rows[i + 1];
  }

  lemma OrderedCons(row: seq<Word>, rows: seq<seq<Word>>)
    requires OrderedRow(row) && OrderedRows(rows)
    requires forall later, w, v :: later in rows && w in row && v in later ==> LineLt(LineKey(w), LineKey(v))
    ensures OrderedRows([row] + rows)
  {
    var longer := [row] + rows;
    assert forall i :: 0 < i < |longer| ==> longer[i] == rows[i - 1] && longer[i] in rows;
    forall i, j, w, v | 0 <= i < j < |longer| && w in longer[i] && v in longer[j]
      ensures LineLt(LineKey(w), LineKey(v))
    {
      if i > 0 {
        assert w in rows[i - 1] && v in rows[j - 1];
      }
    }
  }

  lemma {:induction false} DropEmptyKeeps(rows: seq<seq<Word>>)
    requires OrderedRows(rows)
    ensures OrderedRows(DropEmpty(rows))
  {
    if rows != [] {
      OrderedTail(rows);
      DropEmptyKeeps(rows[1..]);
      if rows[0] != [] {
        OrderedCons(rows[0], DropEmpty(rows[1..]));
      }
    }
  }

  lemma {:induction false} FlattenDropEmpty(rows: seq<seq<Word>>)
    ensures Flatten(DropEmpty(rows)) == Flatten(rows)
  {
    if rows != [] {
      var rest := rows[1..];
      FlattenDropEmpty(rest);
      assert rows == [rows[0]] + rest;
      FlattenConcat([rows[0]], rest);
      FlattenConcat([rows[0]], DropEmpty(rest));
      assert [rows[0]][..0] == [];
      assert Flatten([rows[0]]) == rows[0];
    }
  }

  lemma {:induction false} OrderedRowsAreSorted(rows: seq<seq<Word>>)
    requires OrderedRows(rows)
    ensures Sorted(Flatten(rows))
  {
    if rows != [] {
      var init, last := rows[..|rows| - 1], rows[|rows| - 1];
      OrderedRowsAreSorted(init);
      forall w, v | w in Flatten(init) && v in last
        ensures KeyLe(w, v)
      {
        FlattenMember(init, w);
        var i :| 0 <= i < |init| && w in init[i];
        assert w in rows[i] && v in rows[|rows| - 1];
        assert LineLt(LineKey(w), LineKey(v));
      }
      assert OrderedRow(last);
      SortedConcat(Flatten(init), last);
    }
  }

  lemma SortedConcat(a: seq<Word>, b: seq<Word>)
    requires Sorted(a) && OrderedRow(b)
    requires forall w, v :: w in a && v in b ==> KeyLe(w, v)
    ensures Sorted(a + b)
  {
    forall i, j | 0 <= i < j < |a + b|
      ensures KeyLe((a + b)[i], (a + b)[j])
    {
      if i < |a| <= j {
        assert a[i] in a && b[j - |a|] in b;
      }
    }
  }

  lemma {:induction false} RowsRead(rows: seq<seq<Word>>, lines: seq<string>)
    requires |rows| == |lines|
    requires forall i :: 0 <= i < |rows| ==> Texts(rows[i]) == Words(lines[i])
    ensures LineTexts(DropEmpty(rows)) == Rejoined(lines)
  {
    if rows != [] {
      var rest := DropEmpty(rows[1..]);
      assert forall i :: 0 <= i < |rows| - 1 ==> rows[1..][i] == rows[i + 1] && lines[1..][i] == lines[i + 1];
      RowsRead(rows[1..], lines[1..]);
      assert Texts(rows[0]) == Words(lines[0]) && |Texts(rows[0])| == |rows[0]|;
      if rows[0] != [] {
        LineTextsCons(rows[0], rest);
      }
    }
  }

  lemma LineTextsCons(row: seq<Word>, rows: seq<seq<Word>>)
    ensures LineTexts([row] + rows) == [LineText(row)] + LineTexts(rows)
  {
  }

  /** Rows of words are read as the rows they are. */
  lemma OrderedRowsAreRuns(rows: seq<seq<Word>>)
    requires OrderedRows(rows) && forall i :: 0 <= i < |rows| ==> rows[i] != []
    ensures Runs(SortWords(Flatten(rows)), LineKey) == rows
  {
    OrderedRowsAreSorted(rows);
    SortOfSorted(Flatten(rows));
    forall i, w | 0 <= i < |rows| && w in rows[i]
      ensures LineKey(w) == LineKey(rows[i][0])
    {
      var a :| 0 <= a < |rows[i]| && rows[i][a] == w;
      assert a == 0 || LineKey(rows[i][0]) == LineKey(rows[i][a]);
    }
    forall i, j | 0 <= i < j < |rows| && j == i + 1
      ensures LineKey(rows[i][0]) != LineKey(rows[j][0])
    {
      assert rows[i][0] in rows[i] && rows[j][0] in rows[j];
    }
    RunsOfCut(rows, LineKey);
  }

  // ---- The address ----

  ghost predicate AllMeet(words: seq<Word>, box: Rect) {
    forall w :: w in words ==> w.box.Intersects(box)
  }

  ghost predicate NoneMeets(words: seq<Word>, box: Rect) {
    forall w :: w in words ==> !w.box.Intersects(box)
  }

  /** Words away from the box do not matter to what is selected by it. */
  lemma BesideTheBox(other: seq<Word>, words: seq<Word>, box: Rect)
    requires NoneMeets(other, box)
    ensures InBox(other + words, box) == InBox(words, box)
    ensures OutOfBox(other + words, box) == other + OutOfBox(words, box)
  {
    InBoxConcat(other, words, box);
    OutOfBoxConcat(other, words, box);
    NoneInBox(other, box);
  }

  /** Redaction leaves no word in the address box. */
  lemma RedactedMissesBox(page: Page)
    ensures NoneMeets(Redacted(page).words, ADDRESS_BOX)
  {
    forall w | w in Redacted(page).words
      ensures !w.box.Intersects(ADDRESS_BOX)
    {
      InBoxMember(page.words, ADDRESS_BOX, w);
    }
  }

  function TextsOf(lines: seq<TextLine>): seq<string> {
    seq(|lines|, i requires 0 <= i < |lines| => lines[i].text)
  }

  /** Drawn lines are read as their words, line by line. */
  lemma DrawnLinesRead(lib: Library, page: Page, lines: seq<TextLine>)
    requires TypeContract(lib) && page.Upright() && Drawable(lines)
    ensures LineTexts(Runs(SortWords(Flatten(lib.typeset(page, lines))), LineKey)) == Rejoined(TextsOf(lines))
  {
    var rows := lib.typeset(page, lines);
    assert TypesetOk(lib, page, lines);
    assert OrderedRows(rows);
    RowsRead(rows, TextsOf(lines));
    DropEmptyKeeps(rows);
    FlattenDropEmpty(rows);
    OrderedRowsAreRuns(DropEmpty(rows));
  }

  lemma DrawnAddressReads(lib: Library, page: Page, address: string)
    requires TypeContract(lib) && page.Upright()
    ensures LineTexts(Runs(SortWords(AddressWords(lib, page, address)), LineKey)) == Rejoined(Lines(address))
  {
    DrawnLinesRead(lib, page, AddressLines(address));
    assert TextsOf(AddressLines(address)) == Lines(address);
  }

  // ---- How much is read ----

  /** The length of words run together, each with one separator after it. */
  function Extent(ws: seq<Word>): nat {
    if ws == [] then 0 else |ws[0].text| + 1 + Extent(ws[1..])
  }

  lemma {:induction false} ExtentConcat(a: seq<Word>, b: seq<Word>)
    ensures Extent(a + b) == Extent(a) + Extent(b)
  {
    if a == [] {
      assert a + b == b;
    } else {
      ExtentConcat(a[1..], b);
      assert (a + b)[1..] == a[1..] + b;
    }
  }

  lemma ExtentOfOne(w: Word)
    ensures Extent([w]) == |w.text| + 1
  {
    assert [w][1..] == [];
  }

  lemma {:induction false} ExtentOfInsert(ws: seq<Word>, w: Word)
    ensures Extent(Insert(ws, w)) == Extent(ws) + Extent([w])
  {
    if ws != [] {
      var init, last := ws[..|ws| - 1], ws[|ws| - 1];
      InitLast(ws);
      ExtentConcat(init, [last]);
      if KeyLe(last, w) {
        ExtentConcat(ws, [w]);
      } else {
        ExtentOfInsert(init, w);
        ExtentConcat(Insert(init, w), [last]);
      }
    }
  }

  lemma {:induction false} ExtentOfSorted(ws: seq<Word>)
    ensures Extent(SortWords(ws)) == Extent(ws)
  {
    if ws != [] {
      var init, last := ws[..|ws| - 1], ws[|ws| - 1];
      ExtentOfSorted(init);
      ExtentOfInsert(SortWords(init), last);
      InitLast(ws);
      ExtentConcat(init, [last]);
    }
  }

  /** What is inside a box and what is outside add up. */
  lemma {:induction false} ExtentOfParts(ws: seq<Word>, box: Rect)
    ensures Extent(InBox(ws, box)) + Extent(OutOfBox(ws, box)) == Extent(ws)
  {
    if ws != [] {
      var init, last := ws[..|ws| - 1], ws[|ws| - 1];
      ExtentOfParts(init, box);
      InitLast(ws);
      ExtentConcat(init, [last]);
      if last.box.Intersects(box) {
        ExtentConcat(InBox(init, box), [last]);
        assert OutOfBox(ws, box) == OutOfBox(init, box);
      } else {
        ExtentConcat(OutOfBox(init, box), [last]);
        assert InBox(ws, box) == InBox(init, box);
      }
    }
  }

  lemma {:induction false} LineLength(ws: seq<Word>)
    requires ws != []
    ensures |LineText(ws)| + 1 == Extent(ws)
  {
    if |ws| == 1 {
      ExtentOfOne(ws[0]);
      assert ws == [ws[0]];
    } else {
      LineLength(ws[1..]);
      assert Texts(ws)[1..] == Texts(ws[1..]);
    }
  }

  lemma {:induction false} TextLength(runs: seq<seq<Word>>)
    requires runs != [] && forall i :: 0 <= i < |runs| ==> runs[i] != []
    ensures |Join('\n', LineTexts(runs))| + 1 == Extent(Flatten(runs))
  {
    LineLength(runs[0]);
    assert [runs[0]][..0] == [] && Flatten([runs[0]]) == runs[0];
    if |runs| == 1 {
      assert runs == [runs[0]];
    } else {
      var rest := runs[1..];
      TextLength(rest);
      assert LineTexts(runs)[1..] == LineTexts(rest);
      assert runs == [runs[0]] + rest;
      FlattenConcat([runs[0]], rest);
      ExtentConcat(runs[0], Flatten(rest));
    }
  }

  /** The text of words, lines and all, is as long as the words with one separator between each two. */
  lemma TextOfWordsLength(ws: seq<Word>)
    requires ws != []
    ensures |Join('\n', LineTexts(Runs(SortWords(ws), LineKey)))| + 1 == Extent(ws)
  {
    var sorted := SortWords(ws);
    ExtentOfSorted(ws);
    RunsCut(sorted, LineKey);
    forall i | 0 <= i < |Runs(sorted, LineKey)|
      ensures Runs(sorted, LineKey)[i] != []
    {
      assert OfOneKey(Runs(sorted, LineKey)[i], LineKey);
    }
    TextLength(Runs(sorted, LineKey));
  }

  /** What is read from a box is shorter than everything unless everything is in the box. */
  lemma LessIsShorter(ws: seq<Word>, box: Rect)
    requires !AllMeet(ws, box)
    ensures |RawText(ws, box)| < |Join('\n', LineTexts(Runs(SortWords(ws), LineKey)))| || RawText(ws, box) == ""
  {
    var w :| w in ws && !w.box.Intersects(box);
    InBoxMember(ws, box, w);
    ExtentOfParts(ws, box);
    TextOfWordsLength(ws);
    if InBox(ws, box) != [] {
      TextOfWordsLength(InBox(ws, box));
    }
  }

  lemma AllMeetIsInBox(ws: seq<Word>, box: Rect)
    requires AllMeet(ws, box)
    ensures InBox(ws, box) == ws && OutOfBox(ws, box) == []
  {
    AllInBox(ws, box);
  }

  // ---- The round trip ----

  /** A drawn address is read back as it is exactly when it is tight and all of its words meet the box. */
  lemma DrawnAddressIsReadIff(lib: Library, page: Page, address: string)
    requires TypeContract(lib) && page.Upright() && address != ""
    ensures var drawn := AddressWords(lib, page, address);
            && (AllMeet(drawn, ADDRESS_BOX) ==> RawText(drawn, ADDRESS_BOX) == Join('\n', Rejoined(Lines(address))))
            && (RawText(drawn, ADDRESS_BOX) == address <==> Tight(address) && AllMeet(drawn, ADDRESS_BOX))
  {
    var drawn := AddressWords(lib, page, address);
    DrawnAddressReads(lib, page, address);
    RejoinIsIdentity(address);
    if AllMeet(drawn, ADDRESS_BOX) {
      AllMeetIsInBox(drawn, ADDRESS_BOX);
    } else {
      LessIsShorter(drawn, ADDRESS_BOX);
      RejoinedLength(Lines(address));
      JoinSplit('\n', address);
    }
  }

  /**
   Round trip: whatever was on the page, after redacting it and drawing an address, reading the address box
   gives that address exactly when it consists of non-empty lines of words separated by single spaces and
   all its words, as drawn, meet the box. With other spacing the same words are read, line by line.
   */
  lemma AddressRoundTrip(lib: Library, page: Page, address: string)
    requires TypeContract(lib) && page.Upright() && address != ""
    ensures var text := RawText(WithAddress(lib, Redacted(page), address).words, ADDRESS_BOX);
            var drawn := AddressWords(lib, Redacted(page), address);
            && (AllMeet(drawn, ADDRESS_BOX) ==> text == Join('\n', Rejoined(Lines(address))))
            && (text == address <==> Tight(address) && AllMeet(drawn, ADDRESS_BOX))
  {
    RedactedMissesBox(page);
    BesideTheBox(Redacted(page).words, AddressWords(lib, Redacted(page), address), ADDRESS_BOX);
    DrawnAddressIsReadIff(lib, Redacted(page), address);
  }

  /** All words of up to eight lines that fit the box meet it, on every accepted height. */
  lemma FittingAddressMeetsBox(lib: Library, page: Page, address: string)
    requires TypeContract(lib) && page.Upright() && AcceptedHeight(page.height)
    requires FitsBox(lib, address) && |Lines(address)| <= 8
    ensures AllMeet(AddressWords(lib, page, address), ADDRESS_BOX)
  {
    forall w | w in AddressWords(lib, page, address)
      ensures w.box.Intersects(ADDRESS_BOX)
    {
      AddressWordsInBox(lib, page, address, w);
      BoxesAreApart(w.box);
    }
  }

  // ---- The tag ----

  /** A single run is everything. */
  lemma SingleRun<K>(ws: seq<Word>, key: Word -> K)
    requires |Runs(ws, key)| == 1
    ensures Runs(ws, key) == [ws]
  {
    var runs := Runs(ws, key);
    RunsFlatten(ws, key);
    assert runs[..0] == [];
    assert Flatten(runs) == [] + runs[0] == runs[0];
  }

  lemma SeveralWordsRead(ws: seq<Word>)
    requires |ws| >= 2
    ensures ' ' in Join('\n', LineTexts(Runs(ws, LineKey))) || '\n' in Join('\n', LineTexts(Runs(ws, LineKey)))
  {
    var runs := Runs(ws, LineKey);
    if |runs| >= 2 {
      JoinContains('\n', LineTexts(runs));
    } else {
      SingleRun(ws, LineKey);
      JoinContains(' ', Texts(ws));
      assert LineTexts(runs) == [LineText(ws)];
    }
  }

  /** Text of several words has a space or a line feed in it. */
  lemma SeveralWordsAreSeparated(words: seq<Word>, box: Rect)
    requires |InBox(words, box)| >= 2
    ensures ' ' in RawText(words, box) || '\n' in RawText(words, box)
  {
    var found := InBox(words, box);
    SortSorts(found);
    assert |SortWords(found)| == |multiset(SortWords(found))| == |found|;
    SeveralWordsRead(SortWords(found));
  }

  /** Text that reads NOTIFY is one word. */
  lemma NotifyIsRead(lib: Library, words: seq<Word>, box: Rect)
    requires NfkdContract(lib)
    ensures ExtractText(lib.nfkd, words, box) == NOTIFY_TAG_TEXT ==> |InBox(words, box)| == 1
    ensures |InBox(words, box)| == 1 ==> ExtractText(lib.nfkd, words, box) == lib.nfkd(InBox(words, box)[0].text)
  {
    var found := InBox(words, box);
    if |found| == 0 {
      assert RawText(words, box) == "";
      assert NfkdOk(lib, "");
    } else if |found| == 1 {
      OneWordReads(found[0]);
      assert found == [found[0]];
    } else {
      SeveralWordsAreSeparated(words, box);
      assert NfkdOk(lib, RawText(words, box));
      assert ' ' !in NOTIFY_TAG_TEXT && '\n' !in NOTIFY_TAG_TEXT;
    }
  }

  lemma OneWordReads(w: Word)
    ensures Join('\n', LineTexts(Runs(SortWords([w]), LineKey))) == w.text
  {
    assert [w][..0] == [];
    assert SortWords([w]) == Insert([], w) == [w];
    assert Runs([w], LineKey) == [[w]];
    assert Texts([w]) == [w.text];
    assert LineTexts([[w]]) == [w.text];
  }

  /** Selecting inside one box and outside another can be done in either order. */
  lemma {:induction false} SelectionsCommute(words: seq<Word>, out: Rect, within: Rect)
    ensures InBox(OutOfBox(words, out), within) == OutOfBox(InBox(words, within), out)
  {
    if words != [] {
      var init, w := words[..|words| - 1], words[|words| - 1];
      SelectionsCommute(init, out, within);
      InBoxConcat(OutOfBox(init, out), if w.box.Intersects(out) then [] else [w], within);
      OutOfBoxConcat(InBox(init, within), if w.box.Intersects(within) then [w] else [], out);
      assert [w][..0] == [];
    }
  }

  /** The words of a first page as rewriting leaves it, before the question of the tag. */
  function AddressedWords(lib: Library, page: Page, address: string): seq<Word> {
    OutOfBox(page.words, ADDRESS_BOX) + AddressWords(lib, Redacted(page), address)
  }

  /** A drawn address says nothing in the tag box, whatever its width and the height of the page. */
  lemma AddressOutsideTagBox(lib: Library, page: Page, address: string, other: seq<Word>)
    requires TypeContract(lib) && page.Upright()
    ensures InBox(other + AddressWords(lib, page, address), NOTIFY_TAG_BOX) == InBox(other, NOTIFY_TAG_BOX)
  {
    var drawn := AddressWords(lib, page, address);
    InBoxConcat(other, drawn, NOTIFY_TAG_BOX);
    forall i | 0 <= i < |drawn|
      ensures !drawn[i].box.Intersects(NOTIFY_TAG_BOX)
    {
      AddressMissesTagBox(lib, page, address, drawn[i]);
    }
    NoneInBox(drawn, NOTIFY_TAG_BOX);
  }

  /** The same selection reads the same. */
  lemma SameSelectionReadsSame(lib: Library, a: seq<Word>, b: seq<Word>, box: Rect)
    requires InBox(a, box) == InBox(b, box)
    ensures ExtractText(lib.nfkd, a, box) == ExtractText(lib.nfkd, b, box)
  {
  }

  lemma NotifyIsAscii()
    ensures Ascii(NOTIFY_TAG_TEXT)
  {
  }
}
