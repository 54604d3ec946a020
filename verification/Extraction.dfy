/**
 Reading the text inside a box of a page: keep the words meeting the box, sort them
 by their (block, line, word) numbers, put each (block, line) on one line.
 */
module Extraction {
  import opened Geometry
  import opened Documents
  import opened Text

  lemma InitLast<T>(s: seq<T>)
    requires s != []
    ensures s == s[..|s| - 1] + [s[|s| - 1]]
  {
  }

  // ---- Choosing the words ----

  function InBox(words: seq<Word>, box: Rect): seq<Word> {
    if words == [] then []
    else
      var w := words[|words| - 1];
      InBox(words[..|words| - 1], box) + (if w.box.Intersects(box) then [w] else [])
  }

  /** The words redaction leaves: those that do not meet the box. */
  function OutOfBox(words: seq<Word>, box: Rect): seq<Word> {
    if words == [] then []
    else
      var w := words[|words| - 1];
      OutOfBox(words[..|words| - 1], box) + (if w.box.Intersects(box) then [] else [w])
  }

  lemma {:induction false} InBoxConcat(a: seq<Word>, b: seq<Word>, box: Rect)
    ensures InBox(a + b, box) == InBox(a, box) + InBox(b, box)
  {
    if b == [] {
      assert a + b == a;
    } else {
      assert (a + b)[..|a + b| - 1] == a + b[..|b| - 1];
      InBoxConcat(a, b[..|b| - 1], box);
    }
  }

  lemma {:induction false} OutOfBoxConcat(a: seq<Word>, b: seq<Word>, box: Rect)
    ensures OutOfBox(a + b, box) == OutOfBox(a, box) + OutOfBox(b, box)
  {
    if b == [] {
      assert a + b == a;
    } else {
      assert (a + b)[..|a + b| - 1] == a + b[..|b| - 1];
      OutOfBoxConcat(a, b[..|b| - 1], box);
    }
  }

  lemma {:induction false} AllInBox(words: seq<Word>, box: Rect)
    requires forall i :: 0 <= i < |words| ==> words[i].box.Intersects(box)
    ensures InBox(words, box) == words && OutOfBox(words, box) == []
  {
    if words != [] {
      AllInBox(words[..|words| - 1], box);
    }
  }

  lemma {:induction false} NoneInBox(words: seq<Word>, box: Rect)
    requires forall i :: 0 <= i < |words| ==> !words[i].box.Intersects(box)
    ensures InBox(words, box) == [] && OutOfBox(words, box) == words
  {
    if words != [] {
      NoneInBox(words[..|words| - 1], box);
    }
  }

  /** Redaction keeps exactly the words outside the box, as often as they occur; selection keeps the others. */
  lemma {:induction false} BoxPartition(words: seq<Word>, box: Rect, w: Word)
    ensures multiset(InBox(words, box))[w] == if w.box.Intersects(box) then multiset(words)[w] else 0
    ensures multiset(OutOfBox(words, box))[w] == if w.box.Intersects(box) then 0 else multiset(words)[w]
  {
    if words != [] {
      var init := words[..|words| - 1];
      BoxPartition(init, box, w);
      InitLast(words);
    }
  }

  lemma InBoxMember(words: seq<Word>, box: Rect, w: Word)
    ensures w in InBox(words, box) <==> w in words && w.box.Intersects(box)
    ensures w in OutOfBox(words, box) <==> w in words && !w.box.Intersects(box)
  {
    BoxPartition(words, box, w);
    assert w in InBox(words, box) <==> w in multiset(InBox(words, box));
    assert w in OutOfBox(words, box) <==> w in multiset(OutOfBox(words, box));
    assert w in words <==> w in multiset(words);
  }

  // ---- Sorting ----

  /** Order of the sort key (block, line, word). */
  predicate KeyLe(a: Word, b: Word) {
    a.block < b.block || (a.block == b.block && (a.line < b.line || (a.line == b.line && a.word <= b.word)))
  }

  predicate KeyLt(a: Word, b: Word) {
    !KeyLe(b, a)
  }

  predicate Sorted(ws: seq<Word>) {
    forall i, j :: 0 <= i < j < |ws| ==> KeyLe(ws[i], ws[j])
  }

  predicate StrictlySorted(ws: seq<Word>) {
    forall i, j :: 0 <= i < j < |ws| ==> KeyLt(ws[i], ws[j])
  }

  function Insert(ws: seq<Word>, w: Word): seq<Word> {
    if ws == [] then [w]
    else if KeyLe(ws[|ws| - 1], w) then ws + [w]
    else Insert(ws[..|ws| - 1], w) + [ws[|ws| - 1]]
  }

  /** list.sort: stable, by (block, line, word). */
  function SortWords(ws: seq<Word>): seq<Word> {
    if ws == [] then [] else Insert(SortWords(ws[..|ws| - 1]), ws[|ws| - 1])
  }

  lemma SortedInit(ws: seq<Word>)
    requires Sorted(ws) && ws != []
    ensures Sorted(ws[..|ws| - 1])
  {
  }

  lemma SortedSnoc(ws: seq<Word>, w: Word)
    requires Sorted(ws) && forall x :: x in ws ==> KeyLe(x, w)
    ensures Sorted(ws + [w])
  {
    forall i, j | 0 <= i < j < |ws + [w]|
      ensures KeyLe((ws + [w])[i], (ws + [w])[j])
    {
      assert ws[i] in ws;
    }
  }

  lemma {:induction false} InsertKeeps(ws: seq<Word>, w: Word)
    ensures multiset(Insert(ws, w)) == multiset(ws) + multiset{w}
  {
    if ws != [] && !KeyLe(ws[|ws| - 1], w) {
      InsertKeeps(ws[..|ws| - 1], w);
      InitLast(ws);
    }
  }

  lemma LastIsGreatest(ws: seq<Word>, x: Word)
    requires Sorted(ws) && x in ws
    ensures KeyLe(x, ws[|ws| - 1])
  {
    var i :| 0 <= i < |ws| && ws[i] == x;
    assert i < |ws| - 1 ==> KeyLe(ws[i], ws[|ws| - 1]);
  }

  lemma {:induction false} InsertSorts(ws: seq<Word>, w: Word)
    requires Sorted(ws)
    ensures Sorted(Insert(ws, w))
    ensures multiset(Insert(ws, w)) == multiset(ws) + multiset{w}
  {
    InsertKeeps(ws, w);
    if ws != [] {
      var init, last := ws[..|ws| - 1], ws[|ws| - 1];
      SortedInit(ws);
      forall x | x in ws
        ensures KeyLe(x, last)
      {
        LastIsGreatest(ws, x);
      }
      if KeyLe(last, w) {
        SortedSnoc(ws, w);
      } else {
        InsertSorts(init, w);
        forall x | x in Insert(init, w)
          ensures KeyLe(x, last)
        {
          assert x in multiset(Insert(init, w));
        }
        SortedSnoc(Insert(init, w), last);
      }
    }
  }

  /** Sorting sorts, and conserves the words. */
  lemma {:induction false} SortSorts(ws: seq<Word>)
    ensures Sorted(SortWords(ws))
    ensures multiset(SortWords(ws)) == multiset(ws)
  {
    if ws != [] {
      var init, w := ws[..|ws| - 1], ws[|ws| - 1];
      SortSorts(init);
      var before := SortWords(init);
      InsertSorts(before, w);
      assert SortWords(ws) == Insert(before, w);
      InitLast(ws);
      assert multiset(ws) == multiset(init) + multiset{w};
    }
  }

  predicate SameNumbers(a: Word, b: Word) {
    KeyLe(a, b) && KeyLe(b, a)
  }

  /** The words with the numbers of a given one, in their order. */
  function Numbered(ws: seq<Word>, like: Word): seq<Word> {
    if ws == [] then []
    else
      var w := ws[|ws| - 1];
      Numbered(ws[..|ws| - 1], like) + (if SameNumbers(w, like) then [w] else [])
  }

  lemma NumberedSnoc(ws: seq<Word>, w: Word, like: Word)
    ensures Numbered(ws + [w], like) == Numbered(ws, like) + (if SameNumbers(w, like) then [w] else [])
  {
    assert (ws + [w])[..|ws|] == ws;
  }

  lemma {:induction false} InsertIsStable(ws: seq<Word>, w: Word, like: Word)
    ensures Numbered(Insert(ws, w), like) == Numbered(ws + [w], like)
  {
    NumberedSnoc(ws, w, like);
    if ws == [] {
      assert ws + [w] == [w];
    } else if !KeyLe(ws[|ws| - 1], w) {
      var init, last := ws[..|ws| - 1], ws[|ws| - 1];
      InsertIsStable(init, w, like);
      NumberedSnoc(init, w, like);
      NumberedSnoc(Insert(init, w), last, like);
    }
  }

  /** Sorting keeps words with the same numbers in the order in which they come. */
  lemma {:induction false} SortIsStable(ws: seq<Word>, like: Word)
    ensures Numbered(SortWords(ws), like) == Numbered(ws, like)
  {
    if ws != [] {
      var init, last := ws[..|ws| - 1], ws[|ws| - 1];
      SortIsStable(init, like);
      InsertIsStable(SortWords(init), last, like);
      NumberedSnoc(SortWords(init), last, like);
    }
  }

  /** Sorted means by block, then by line, then by word. */
  lemma SortsByNumbers(ws: seq<Word>)
    ensures var sorted := SortWords(ws);
            forall i, j :: 0 <= i < j < |sorted| ==>
                             || sorted[i].block < sorted[j].block
                             || (sorted[i].block == sorted[j].block && sorted[i].line < sorted[j].line)
                             || (sorted[i].block == sorted[j].block && sorted[i].line == sorted[j].line
                                 && sorted[i].word <= sorted[j].word)
  {
    SortSorts(ws);
  }

  lemma {:induction false} SortOfSorted(ws: seq<Word>)
    requires Sorted(ws)
    ensures SortWords(ws) == ws
  {
    if ws != [] {
      SortOfSorted(ws[..|ws| - 1]);
      assert ws == ws[..|ws| - 1] + [ws[|ws| - 1]];
    }
  }

  /** No two occurrences of words have the same numbers. */
  ghost predicate UniqueNumbers(ws: seq<Word>) {
    forall i, j :: 0 <= i < j < |ws| ==> !(ws[i].block == ws[j].block && ws[i].line == ws[j].line && ws[i].word == ws[j].word)
  }

  /** There is only one way to order words with distinct numbers. */
  lemma {:induction false} SortedIsUnique(a: seq<Word>, b: seq<Word>)
    requires StrictlySorted(a) && Sorted(b)
    requires multiset(a) == multiset(b)
    ensures a == b
  {
    assert |a| == |multiset(a)| == |multiset(b)| == |b|;
    if a != [] {
      SameLast(a, b);
      InitLast(a);
      InitLast(b);
      var init, last := a[..|a| - 1], a[|a| - 1];
      assert multiset(init) == multiset(a) - multiset{last};
      assert multiset(b[..|b| - 1]) == multiset(b) - multiset{last};
      SortedInit(b);
      StrictlySortedInit(a);
      SortedIsUnique(init, b[..|b| - 1]);
    }
  }

  lemma StrictlySortedInit(ws: seq<Word>)
    requires StrictlySorted(ws) && ws != []
    ensures StrictlySorted(ws[..|ws| - 1])
  {
  }

  /** The greatest word comes last in either order. */
  lemma SameLast(a: seq<Word>, b: seq<Word>)
    requires StrictlySorted(a) && Sorted(b) && a != [] && b != []
    requires multiset(a) == multiset(b)
    ensures a[|a| - 1] == b[|b| - 1]
  {
    var x, y := a[|a| - 1], b[|b| - 1];
    assert x in multiset(b) && y in multiset(a);
    var i :| 0 <= i < |b| && b[i] == x;
    var j :| 0 <= j < |a| && a[j] == y;
    assert j < |a| - 1 ==> KeyLt(y, x);
    assert i < |b| - 1 ==> KeyLe(x, y);
  }

  // ---- Grouping ----

  /** The key by which words are put on lines. */
  function LineKey(w: Word): (nat, nat) { (w.block, w.line) }

  function BottomKey(w: Word): real { w.box.y1 }

  predicate LineLt(a: (nat, nat), b: (nat, nat)) {
    a.0 < b.0 || (a.0 == b.0 && a.1 < b.1)
  }

  /** One more word for what is grouped: it joins the last run, or starts a new one. */
  function AddWord(runs: seq<seq<Word>>, w: Word, joins: bool): (longer: seq<seq<Word>>)
    requires joins ==> runs != []
    ensures longer != []
  {
    if joins then runs[..|runs| - 1] + [runs[|runs| - 1] + [w]] else runs + [[w]]
  }

  lemma AddWordIs(runs: seq<seq<Word>>, w: Word, joins: bool)
    requires joins ==> runs != []
    ensures var longer := AddWord(runs, w, joins);
            && |longer| == (if joins then |runs| else |runs| + 1)
            && longer[|longer| - 1] == (if joins then runs[|runs| - 1] + [w] else [w])
            && forall i :: 0 <= i < |longer| - 1 ==> longer[i] == runs[i]
  {
  }

  /** itertools.groupby: maximal runs of neighbours with equal keys. */
  function Runs<K(==)>(ws: seq<Word>, key: Word -> K): (runs: seq<seq<Word>>)
    ensures ws == [] <==> runs == []
  {
    if ws == [] then []
    else
      var init, w := ws[..|ws| - 1], ws[|ws| - 1];
      AddWord(Runs(init, key), w, init != [] && key(init[|init| - 1]) == key(w))
  }

  function Flatten(runs: seq<seq<Word>>): seq<Word> {
    if runs == [] then [] else Flatten(runs[..|runs| - 1]) + runs[|runs| - 1]
  }

  lemma {:induction false} FlattenSnoc(runs: seq<seq<Word>>, run: seq<Word>)
    ensures Flatten(runs + [run]) == Flatten(runs) + run
  {
    assert (runs + [run])[..|runs|] == runs;
  }

  lemma {:induction false} FlattenConcat(a: seq<seq<Word>>, b: seq<seq<Word>>)
    ensures Flatten(a + b) == Flatten(a) + Flatten(b)
  {
    if b == [] {
      assert a + b == a;
    } else {
      var init, last := b[..|b| - 1], b[|b| - 1];
      FlattenConcat(a, init);
      FlattenSnoc(a + init, last);
      FlattenSnoc(init, last);
      assert a + b == (a + init) + [last];
      assert b == init + [last];
      assert Flatten(a) + (Flatten(init) + last) == (Flatten(a) + Flatten(init)) + last;
    }
  }

  lemma {:induction false} FlattenMember(runs: seq<seq<Word>>, w: Word)
    ensures w in Flatten(runs) <==> exists i :: 0 <= i < |runs| && w in runs[i]
  {
    if runs != [] {
      var init := runs[..|runs| - 1];
      FlattenMember(init, w);
      if exists i :: 0 <= i < |runs| && w in runs[i] {
        var i :| 0 <= i < |runs| && w in runs[i];
        assert i == |runs| - 1 || w in init[i];
      }
      if exists i :: 0 <= i < |init| && w in init[i] {
        var i :| 0 <= i < |init| && w in init[i];
        assert w in runs[i];
      }
    }
  }

  ghost predicate OfOneKey<K>(run: seq<Word>, key: Word -> K) {
    run != [] && forall w :: w in run ==> key(w) == key(run[0])
  }

  /** Every run is a non-empty stretch of words with one key. */
  ghost predicate Uniform<K>(runs: seq<seq<Word>>, key: Word -> K) {
    forall i :: 0 <= i < |runs| ==> OfOneKey(runs[i], key)
  }

  ghost predicate NeighboursDiffer<K>(runs: seq<seq<Word>>, key: Word -> K) {
    forall i, j :: 0 <= i < j < |runs| && j == i + 1 ==>
                     runs[i] != [] && runs[j] != [] && key(runs[i][0]) != key(runs[j][0])
  }

  lemma RunsSnoc<K>(ws: seq<Word>, w: Word, key: Word -> K)
    ensures Runs(ws + [w], key) == AddWord(Runs(ws, key), w, ws != [] && key(ws[|ws| - 1]) == key(w))
  {
    var longer := ws + [w];
    assert longer[..|longer| - 1] == ws && longer[|longer| - 1] == w;
    RunsUnfold(longer, key);
  }

  lemma RunsUnfold<K>(ws: seq<Word>, key: Word -> K)
    requires ws != []
    ensures var init, w := ws[..|ws| - 1], ws[|ws| - 1];
            Runs(ws, key) == AddWord(Runs(init, key), w, init != [] && key(init[|init| - 1]) == key(w))
  {
  }

  lemma {:induction false} RunsFlatten<K>(ws: seq<Word>, key: Word -> K)
    ensures Flatten(Runs(ws, key)) == ws
  {
    if ws != [] {
      var init, w := ws[..|ws| - 1], ws[|ws| - 1];
      RunsFlatten(init, key);
      FlattenAddWord(Runs(init, key), w, init != [] && key(init[|init| - 1]) == key(w));
      InitLast(ws);
    }
  }

  lemma FlattenAddWord(runs: seq<seq<Word>>, w: Word, joins: bool)
    requires joins ==> runs != []
    ensures Flatten(AddWord(runs, w, joins)) == Flatten(runs) + [w]
  {
    if joins {
      var front, last := runs[..|runs| - 1], runs[|runs| - 1];
      FlattenSnoc(front, last + [w]);
      assert Flatten(front) + (last + [w]) == (Flatten(front) + last) + [w];
    } else {
      FlattenSnoc(runs, [w]);
    }
  }

  /** Runs are uniform, and the last one has the key of the last word. */
  lemma {:induction false} RunsUniform<K>(ws: seq<Word>, key: Word -> K)
    ensures Uniform(Runs(ws, key), key)
    ensures ws != [] ==> key(ws[|ws| - 1]) == key(Runs(ws, key)[|Runs(ws, key)| - 1][0])
  {
    if ws != [] {
      var init, w := ws[..|ws| - 1], ws[|ws| - 1];
      RunsUniform(init, key);
      var before, joins := Runs(init, key), init != [] && key(init[|init| - 1]) == key(w);
      var longer := AddWord(before, w, joins);
      AddWordIs(before, w, joins);
      forall i | 0 <= i < |longer|
        ensures OfOneKey(longer[i], key)
      {
        if i < |before| {
          assert OfOneKey(before[i], key);
        }
      }
    }
  }

  lemma {:induction false} RunsDiffer<K>(ws: seq<Word>, key: Word -> K)
    ensures NeighboursDiffer(Runs(ws, key), key)
  {
    if ws != [] {
      var init, w := ws[..|ws| - 1], ws[|ws| - 1];
      RunsUniform(init, key);
      RunsDiffer(init, key);
      DifferAddWord(Runs(init, key), w, init != [] && key(init[|init| - 1]) == key(w), key);
    }
  }

  lemma DifferAddWord<K>(runs: seq<seq<Word>>, w: Word, joins: bool, key: Word -> K)
    requires Uniform(runs, key) && NeighboursDiffer(runs, key)
    requires joins ==> runs != []
    requires runs != [] && !joins ==> key(runs[|runs| - 1][0]) != key(w)
    ensures NeighboursDiffer(AddWord(runs, w, joins), key)
  {
    var longer := AddWord(runs, w, joins);
    AddWordIs(runs, w, joins);
    forall i, j | 0 <= i < j < |longer| && j == i + 1
      ensures longer[i] != [] && longer[j] != [] && key(longer[i][0]) != key(longer[j][0])
    {
      assert OfOneKey(runs[i], key);
      if j < |runs| {
        assert runs[j] != [] && key(runs[i][0]) != key(runs[j][0]);
      }
    }
  }

  /** What groupby returns: the words unchanged, cut exactly where the key changes. */
  lemma RunsCut<K>(ws: seq<Word>, key: Word -> K)
    ensures Flatten(Runs(ws, key)) == ws
    ensures Uniform(Runs(ws, key), key) && NeighboursDiffer(Runs(ws, key), key)
  {
    RunsFlatten(ws, key);
    RunsUniform(ws, key);
    RunsDiffer(ws, key);
  }

  /** A sequence cut into uniform runs whose neighbours differ is cut as groupby would. */
  lemma {:induction false} RunsOfCut<K>(runs: seq<seq<Word>>, key: Word -> K)
    requires Uniform(runs, key) && NeighboursDiffer(runs, key)
    ensures Runs(Flatten(runs), key) == runs
  {
    if runs != [] {
      var front, last := runs[..|runs| - 1], runs[|runs| - 1];
      assert forall i :: 0 <= i < |front| ==> front[i] == runs[i];
      RunsOfCut(front, key);
      InitLast(runs);
      assert OfOneKey(last, key);
      if front != [] {
        var before := front[|front| - 1];
        FlattenLast(front);
        assert OfOneKey(before, key) && before[|before| - 1] in before;
        assert runs[|front| - 1] == before && runs[|front|] == last;
      }
      RunsExtend(Flatten(front), last, key);
    }
  }

  lemma FlattenLast(runs: seq<seq<Word>>)
    requires runs != [] && runs[|runs| - 1] != []
    ensures Flatten(runs) != []
    ensures Flatten(runs)[|Flatten(runs)| - 1] == runs[|runs| - 1][|runs[|runs| - 1]| - 1]
  {
  }

  lemma {:induction false} RunsExtend<K>(ws: seq<Word>, run: seq<Word>, key: Word -> K)
    requires OfOneKey(run, key)
    requires ws != [] ==> key(ws[|ws| - 1]) != key(run[0])
    ensures Runs(ws + run, key) == Runs(ws, key) + [run]
  {
    var init, w := run[..|run| - 1], run[|run| - 1];
    InitLast(run);
    assert ws + run == ws + init + [w];
    assert w in run;
    RunsSnoc(ws + init, w, key);
    if init == [] {
      assert ws + init == ws;
    } else {
      assert forall x :: x in init ==> x in run;
      RunsExtend(ws, init, key);
      assert (ws + init)[|ws + init| - 1] == init[|init| - 1] && init[|init| - 1] in run;
      assert (Runs(ws, key) + [init])[..|Runs(ws, key)|] == Runs(ws, key);
    }
  }

  /** Runs of sorted words come in strictly increasing (block, line) order. */
  lemma {:induction false} RunsIncrease(ws: seq<Word>)
    requires Sorted(ws)
    ensures Increasing(Runs(ws, LineKey))
  {
    if ws != [] {
      var init, w := ws[..|ws| - 1], ws[|ws| - 1];
      SortedInit(ws);
      RunsIncrease(init);
      RunsUniform(init, LineKey);
      var joins := init != [] && LineKey(init[|init| - 1]) == LineKey(w);
      if init != [] {
        assert KeyLe(ws[|init| - 1], ws[|init|]);
      }
      IncreasingAddWord(Runs(init, LineKey), w, joins);
    }
  }

  ghost predicate Increasing(runs: seq<seq<Word>>) {
    && (forall i :: 0 <= i < |runs| ==> runs[i] != [])
    && forall i, j :: 0 <= i < j < |runs| ==> LineLt(LineKey(runs[i][0]), LineKey(runs[j][0]))
  }

  lemma IncreasingAddWord(runs: seq<seq<Word>>, w: Word, joins: bool)
    requires Increasing(runs) && (joins ==> runs != [])
    requires runs != [] && !joins ==> LineLt(LineKey(runs[|runs| - 1][0]), LineKey(w))
    ensures Increasing(AddWord(runs, w, joins))
  {
    var longer := AddWord(runs, w, joins);
    AddWordIs(runs, w, joins);
    assert forall i :: 0 <= i < |runs| ==> longer[i] != [] && longer[i][0] == runs[i][0];
    forall i, j | 0 <= i < j < |longer|
      ensures LineLt(LineKey(longer[i][0]), LineKey(longer[j][0]))
    {
      assert runs[i] != [];
      if j == |runs| {
        assert i == |runs| - 1 || LineLt(LineKey(runs[i][0]), LineKey(runs[|runs| - 1][0]));
      }
    }
  }

  // ---- The extracted text ----

  function Texts(ws: seq<Word>): seq<string> {
    seq(|ws|, i requires 0 <= i < |ws| => ws[i].text)
  }

  function LineText(run: seq<Word>): string {
    Join(' ', Texts(run))
  }

  function LineTexts(runs: seq<seq<Word>>): seq<string> {
    seq(|runs|, i requires 0 <= i < |runs| => LineText(runs[i]))
  }

  /** The words inside the box, line by line. */
  function LinesInBox(words: seq<Word>, box: Rect): seq<seq<Word>> {
    Runs(SortWords(InBox(words, box)), LineKey)
  }

  /** The text inside the box, before compatibility characters are replaced. */
  function RawText(words: seq<Word>, box: Rect): string {
    Join('\n', LineTexts(LinesInBox(words, box)))
  }

  function ExtractText(nfkd: string -> string, words: seq<Word>, box: Rect): string {
    nfkd(RawText(words, box))
  }

  /** The first i words are grouped: all groups but the last are closed. */
  ghost predicate Grouped(ws: seq<Word>, i: nat, closed: seq<seq<Word>>, group: seq<Word>)
    requires i <= |ws|
  {
    if i == 0 then closed == [] && group == [] else group != [] && Runs(ws[..i], LineKey) == closed + [group]
  }

  lemma GroupOneMore(ws: seq<Word>, i: nat, closed: seq<seq<Word>>, group: seq<Word>)
    requires i < |ws| && Grouped(ws, i, closed, group)
    ensures if i > 0 && LineKey(ws[i - 1]) == LineKey(ws[i]) then Grouped(ws, i + 1, closed, group + [ws[i]])
            else Grouped(ws, i + 1, if i == 0 then closed else closed + [group], [ws[i]])
  {
    RunsSnoc(ws[..i], ws[i], LineKey);
    assert ws[..i + 1] == ws[..i] + [ws[i]];
    assert (closed + [group])[..|closed|] == closed;
  }

  lemma LineTextsSnoc(runs: seq<seq<Word>>, run: seq<Word>)
    ensures LineTexts(runs + [run]) == LineTexts(runs) + [LineText(run)]
  {
  }

  /** _extract_text_from_page: one pass over the sorted words, closing a line whenever (block, line) changes. */
  method ExtractTextFromPage(nfkd: string -> string, words: seq<Word>, box: Rect) returns (text: string)
    ensures text == ExtractText(nfkd, words, box)
  {
    var myWords := SortWords(InBox(words, box));
    var lines: seq<string> := [];
    var group: seq<Word> := [];
    ghost var closed: seq<seq<Word>> := [];
    for i := 0 to |myWords|
      invariant Grouped(myWords, i, closed, group)
      invariant lines == LineTexts(closed)
    {
      var w := myWords[i];
      GroupOneMore(myWords, i, closed, group);
      if i > 0 && LineKey(myWords[i - 1]) == LineKey(w) {
        group := group + [w];
      } else {
        if i > 0 {
          LineTextsSnoc(closed, group);
          lines := lines + [LineText(group)];
          closed := closed + [group];
        }
        group := [w];
      }
    }
    assert myWords[..|myWords|] == myWords;
    if |group| > 0 {
      LineTextsSnoc(closed, group);
      lines := lines + [LineText(group)];
    }
    text := nfkd(Join('\n', lines));
  }

  /**
   The extracted form is canonical: the words that meet the box, each once, on exactly one
   line for each (block, line) that occurs among them, the lines in increasing order.
   */
  lemma OneLinePerKey(words: seq<Word>, box: Rect)
    ensures multiset(Flatten(LinesInBox(words, box))) == multiset(InBox(words, box))
    ensures Sorted(Flatten(LinesInBox(words, box)))
    ensures Uniform(LinesInBox(words, box), LineKey)
    ensures Increasing(LinesInBox(words, box))
    ensures forall w :: w in words && w.box.Intersects(box) <==>
                        exists i :: 0 <= i < |LinesInBox(words, box)| && w in LinesInBox(words, box)[i]
  {
    var sorted := SortWords(InBox(words, box));
    SortSorts(InBox(words, box));
    RunsCut(sorted, LineKey);
    RunsIncrease(sorted);
    forall w
      ensures w in words && w.box.Intersects(box) <==>
              exists i :: 0 <= i < |LinesInBox(words, box)| && w in LinesInBox(words, box)[i]
    {
      InBoxMember(words, box, w);
      FlattenMember(LinesInBox(words, box), w);
      assert w in sorted <==> w in multiset(sorted);
      assert w in InBox(words, box) <==> w in multiset(InBox(words, box));
    }
  }

  /** A line is of one block and line number, and lines come in increasing order of block, then line. */
  lemma LinesAreNumbered(words: seq<Word>, box: Rect)
    ensures var lines := LinesInBox(words, box);
            && (forall i, w, v :: 0 <= i < |lines| && w in lines[i] && v in lines[i] ==> w.block == v.block && w.line == v.line)
            && (forall i, j, w, v :: 0 <= i < j < |lines| && w in lines[i] && v in lines[j] ==>
                                       w.block < v.block || (w.block == v.block && w.line < v.line))
  {
    var lines := LinesInBox(words, box);
    OneLinePerKey(words, box);
    forall i, w | 0 <= i < |lines| && w in lines[i]
      ensures LineKey(w) == LineKey(lines[i][0])
    {
      assert OfOneKey(lines[i], LineKey);
    }
  }

  /** When words have distinct numbers, the order in which a page lists them does not matter. */
  lemma OrderDoesNotMatter(words: seq<Word>, others: seq<Word>, box: Rect)
    requires multiset(words) == multiset(others)
    requires UniqueNumbers(InBox(words, box))
    ensures LinesInBox(words, box) == LinesInBox(others, box)
  {
    var a, b := InBox(words, box), InBox(others, box);
    assert multiset(a) == multiset(b) by {
      forall w ensures multiset(a)[w] == multiset(b)[w] {
        BoxPartition(words, box, w);
        BoxPartition(others, box, w);
      }
    }
    SortSorts(a);
    SortSorts(b);
    UniqueNumbersSortStrictly(a);
    SortedIsUnique(SortWords(a), SortWords(b));
  }

  lemma {:induction false} UniqueNumbersSortStrictly(ws: seq<Word>)
    requires UniqueNumbers(ws)
    ensures StrictlySorted(SortWords(ws))
  {
    if ws != [] {
      var init, w := ws[..|ws| - 1], ws[|ws| - 1];
      assert forall i, j :: 0 <= i < j < |init| ==> init[i] == ws[i] && init[j] == ws[j];
      UniqueNumbersSortStrictly(init);
      SortSorts(init);
      forall x | x in SortWords(init)
        ensures !(KeyLe(x, w) && KeyLe(w, x))
      {
        assert x in multiset(init);
        var i :| 0 <= i < |init| && init[i] == x;
        assert ws[i] == x;
      }
      InsertStrictly(SortWords(init), w);
    }
  }

  lemma StrictlySortedSnoc(ws: seq<Word>, w: Word)
    requires StrictlySorted(ws) && forall x :: x in ws ==> KeyLt(x, w)
    ensures StrictlySorted(ws + [w])
  {
    forall i, j | 0 <= i < j < |ws + [w]|
      ensures KeyLt((ws + [w])[i], (ws + [w])[j])
    {
      assert ws[i] in ws;
    }
  }

  lemma LastIsStrictlyGreatest(ws: seq<Word>, x: Word)
    requires StrictlySorted(ws) && ws != [] && x in ws[..|ws| - 1]
    ensures KeyLt(x, ws[|ws| - 1])
  {
    var i :| 0 <= i < |ws| - 1 && ws[i] == x;
  }

  lemma {:induction false} InsertStrictly(ws: seq<Word>, w: Word)
    requires StrictlySorted(ws)
    requires forall x :: x in ws ==> !(KeyLe(x, w) && KeyLe(w, x))
    ensures StrictlySorted(Insert(ws, w))
  {
    if ws != [] {
      var init, last := ws[..|ws| - 1], ws[|ws| - 1];
      StrictlySortedInit(ws);
      forall x | x in init
        ensures KeyLt(x, last) && x in ws
      {
        LastIsStrictlyGreatest(ws, x);
      }
      if KeyLe(last, w) {
        InitLast(ws);
        StrictlySortedSnoc(ws, w);
      } else {
        InsertStrictly(init, w);
        InsertKeeps(init, w);
        forall x | x in Insert(init, w)
          ensures KeyLt(x, last)
        {
          assert x in multiset(Insert(init, w));
          assert x == w || x in init;
        }
        StrictlySortedSnoc(Insert(init, w), last);
      }
    }
  }

  /** Neighbours share the one key iff they share the other. */
  ghost predicate NeighboursAgree<K, L>(ws: seq<Word>, key: Word -> K, other: Word -> L) {
    forall i, j :: 0 <= i < j < |ws| && j == i + 1 ==> (key(ws[i]) == key(ws[j]) <==> other(ws[i]) == other(ws[j]))
  }

  /**
   Grouping by (block, line) and grouping by the bottom of the box give the same lines exactly
   when neighbours share the one iff they share the other: the case in which no difference is logged.
   */
  lemma {:induction false} SameGrouping<K, L>(ws: seq<Word>, key: Word -> K, other: Word -> L)
    ensures Runs(ws, key) == Runs(ws, other) <==> NeighboursAgree(ws, key, other)
  {
    if ws != [] {
      var init, w := ws[..|ws| - 1], ws[|ws| - 1];
      SameGrouping(init, key, other);
      InitLast(ws);
      if init != [] {
        SameGroupingStep(init, w, key, other);
        NeighboursAgreeSnoc(init, w, key, other);
      }
    }
  }

  lemma NeighboursAgreeSnoc<K, L>(ws: seq<Word>, w: Word, key: Word -> K, other: Word -> L)
    requires ws != []
    ensures NeighboursAgree(ws + [w], key, other) <==>
            && NeighboursAgree(ws, key, other)
            && (key(ws[|ws| - 1]) == key(w) <==> other(ws[|ws| - 1]) == other(w))
  {
    var longer := ws + [w];
    if NeighboursAgree(longer, key, other) {
      assert longer[|ws| - 1] == ws[|ws| - 1] && longer[|ws|] == w;
      forall i, j | 0 <= i < j < |ws| && j == i + 1
        ensures key(ws[i]) == key(ws[j]) <==> other(ws[i]) == other(ws[j])
      {
        assert longer[i] == ws[i] && longer[j] == ws[j];
      }
    }
  }

  lemma SameGroupingStep<K, L>(ws: seq<Word>, w: Word, key: Word -> K, other: Word -> L)
    requires ws != []
    ensures Runs(ws + [w], key) == Runs(ws + [w], other) <==>
            && Runs(ws, key) == Runs(ws, other)
            && (key(ws[|ws| - 1]) == key(w) <==> other(ws[|ws| - 1]) == other(w))
  {
    RunsSnoc(ws, w, key);
    RunsSnoc(ws, w, other);
    RunsUniform(ws, key);
    RunsUniform(ws, other);
    var a, b := Runs(ws, key), Runs(ws, other);
    assert OfOneKey(a[|a| - 1], key) && OfOneKey(b[|b| - 1], other);
    AddWordInjective(a, b, w, key(ws[|ws| - 1]) == key(w), other(ws[|ws| - 1]) == other(w));
  }

  /** The text as it would be with words put on lines by the bottom of their boxes, for comparison only. */
  function RawTextByBottom(words: seq<Word>, box: Rect): string {
    Join('\n', LineTexts(Runs(SortWords(InBox(words, box)), BottomKey)))
  }

  /** Where bottoms tell lines apart as their numbers do, both ways of grouping give the same text. */
  lemma BottomsAgree(words: seq<Word>, box: Rect)
    requires var ws := SortWords(InBox(words, box));
             forall i, j :: 0 <= i < j < |ws| && j == i + 1 ==>
                              (ws[i].block == ws[j].block && ws[i].line == ws[j].line <==> ws[i].box.y1 == ws[j].box.y1)
    ensures RawTextByBottom(words, box) == RawText(words, box)
  {
    assert NeighboursAgree(SortWords(InBox(words, box)), LineKey, BottomKey);
    SameGrouping(SortWords(InBox(words, box)), LineKey, BottomKey);
  }

  /** From the result of adding a word one can tell what it was added to and how. */
  lemma AddWordInjective(a: seq<seq<Word>>, b: seq<seq<Word>>, w: Word, joinsA: bool, joinsB: bool)
    requires a != [] && b != [] && a[|a| - 1] != [] && b[|b| - 1] != []
    ensures AddWord(a, w, joinsA) == AddWord(b, w, joinsB) <==> a == b && joinsA == joinsB
  {
    var x, y := AddWord(a, w, joinsA), AddWord(b, w, joinsB);
    AddWordIs(a, w, joinsA);
    AddWordIs(b, w, joinsB);
    if x == y {
      assert |x[|x| - 1]| == |y[|y| - 1]|;
      assert joinsA == joinsB && |a| == |b|;
      forall i | 0 <= i < |a|
        ensures a[i] == b[i]
      {
        if i == |x| - 1 {
          assert a[i] == x[i][..|x[i]| - 1] && b[i] == y[i][..|y[i]| - 1];
        } else {
          assert x[i] == y[i];
        }
      }
    }
  }
}
