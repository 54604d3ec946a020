/** Splitting and joining text, as str.split and str.join do. */
module Text {

  function Join(sep: char, parts: seq<string>): string {
    if parts == [] then ""
    else if |parts| == 1 then parts[0]
    else parts[0] + [sep] + Join(sep, parts[1..])
  }

  function Split(sep: char, s: string): (parts: seq<string>)
    ensures parts != []
  {
    if s == "" then [""]
    else
      var rest := Split(sep, s[1..]);
      if s[0] == sep then [""] + rest else [[s[0]] + rest[0]] + rest[1..]
  }

  /** Splitting loses nothing. */
  lemma {:induction false} JoinSplit(sep: char, s: string)
    ensures Join(sep, Split(sep, s)) == s
  {
    if s != "" {
      var rest := Split(sep, s[1..]);
      JoinSplit(sep, s[1..]);
      if s[0] == sep {
        assert ([""] + rest)[1..] == rest;
      } else {
        var parts := [[s[0]] + rest[0]] + rest[1..];
        assert parts[1..] == rest[1..];
        assert s == [s[0]] + s[1..];
      }
    }
  }

  /** Splitting finds again the parts that were joined. */
  lemma {:induction false} SplitJoin(sep: char, parts: seq<string>)
    requires parts != []
    requires forall i :: 0 <= i < |parts| ==> sep !in parts[i]
    ensures Split(sep, Join(sep, parts)) == parts
  {
    if |parts| == 1 {
      SplitPlain(sep, parts[0], "", [""]);
      assert parts[0] + "" == parts[0];
      assert [parts[0]] + [""][1..] == parts;
    } else {
      SplitJoin(sep, parts[1..]);
      var tail := Join(sep, parts[1..]);
      assert ([sep] + tail)[1..] == tail;
      SplitPlain(sep, parts[0], [sep] + tail, [""] + parts[1..]);
      assert parts[0] + [sep] + tail == parts[0] + ([sep] + tail);
      assert parts[0] + "" == parts[0];
      assert ([""] + parts[1..])[1..] == parts[1..];
      assert [parts[0]] + parts[1..] == parts;
    }
  }

  /** Text without a separator extends the first part of what follows. */
  lemma {:induction false} SplitPlain(sep: char, s: string, t: string, parts: seq<string>)
    requires sep !in s
    requires Split(sep, t) == parts
    ensures Split(sep, s + t) == [s + parts[0]] + parts[1..]
  {
    if s == "" {
      assert s + t == t;
      assert s + parts[0] == parts[0];
      assert [parts[0]] + parts[1..] == parts;
    } else {
      assert (s + t)[1..] == s[1..] + t;
      SplitPlain(sep, s[1..], t, parts);
      assert s + parts[0] == [s[0]] + (s[1..] + parts[0]);
      assert ([s[1..] + parts[0]] + parts[1..])[1..] == parts[1..];
    }
  }

  /** The parts that are not empty. */
  function NonEmpty(parts: seq<string>): (r: seq<string>)
    ensures forall i :: 0 <= i < |r| ==> r[i] != ""
  {
    if parts == [] then []
    else if parts[0] == "" then NonEmpty(parts[1..])
    else [parts[0]] + NonEmpty(parts[1..])
  }

  lemma {:induction false} NonEmptyAll(parts: seq<string>)
    requires forall i :: 0 <= i < |parts| ==> parts[i] != ""
    ensures NonEmpty(parts) == parts
  {
    if parts != [] {
      NonEmptyAll(parts[1..]);
      assert [parts[0]] + parts[1..] == parts;
    }
  }

  /** The words of a line: what lies between its spaces. */
  function Words(line: string): seq<string> {
    NonEmpty(Split(' ', line))
  }

  function Lines(text: string): seq<string> {
    Split('\n', text)
  }

  /** A line whose words are separated by single spaces. */
  predicate TightLine(line: string) {
    forall i :: 0 <= i < |Split(' ', line)| ==> Split(' ', line)[i] != ""
  }

  /** Text of non-empty lines of words separated by single spaces. */
  predicate Tight(text: string) {
    forall i :: 0 <= i < |Lines(text)| ==> TightLine(Lines(text)[i])
  }

  /** What is left of a line, or of a text, once it has been taken apart into words and put together again. */
  function RejoinLine(line: string): string {
    Join(' ', Words(line))
  }

  function Rejoined(lines: seq<string>): seq<string> {
    if lines == [] then []
    else if Words(lines[0]) == [] then Rejoined(lines[1..])
    else [RejoinLine(lines[0])] + Rejoined(lines[1..])
  }

  predicate Ascii(s: string) {
    forall i :: 0 <= i < |s| ==> s[i] < 128 as char
  }

  lemma {:induction false} JoinContains(sep: char, parts: seq<string>)
    requires |parts| >= 2
    ensures sep in Join(sep, parts)
  {
    var prefix := parts[0] + [sep];
    var rest := Join(sep, parts[1..]);
    assert prefix[|parts[0]|] == sep;
    assert (prefix + rest)[|parts[0]|] == sep;
  }

  /** Every character of a part is in the joined text. */
  lemma {:induction false} JoinKeeps(sep: char, parts: seq<string>, i: nat, c: char)
    requires i < |parts| && c in parts[i]
    ensures c in Join(sep, parts)
  {
    if |parts| > 1 && i > 0 {
      JoinKeeps(sep, parts[1..], i - 1, c);
    }
  }

  /** Dropping empty parts shortens the joined text by one separator each. */
  lemma {:induction false} NonEmptyLength(sep: char, parts: seq<string>)
    requires NonEmpty(parts) != []
    ensures |Join(sep, NonEmpty(parts))| + (|parts| - |NonEmpty(parts)|) == |Join(sep, parts)|
    ensures |NonEmpty(parts)| <= |parts|
    ensures |NonEmpty(parts)| == |parts| ==> forall i :: 0 <= i < |parts| ==> parts[i] != ""
  {
    if NonEmpty(parts[1..]) == [] {
      AllEmptyLength(sep, parts[1..]);
      if |parts| > 1 {
        assert NonEmpty(parts) == [parts[0]];
      }
    } else {
      NonEmptyLength(sep, parts[1..]);
      if parts[0] != "" {
        assert NonEmpty(parts)[1..] == NonEmpty(parts[1..]);
      }
    }
  }

  lemma {:induction false} AllEmptyLength(sep: char, parts: seq<string>)
    requires NonEmpty(parts) == []
    ensures |Join(sep, parts)| == if parts == [] then 0 else |parts| - 1
  {
    if parts != [] {
      AllEmptyLength(sep, parts[1..]);
    }
  }

  lemma {:induction false} RejoinLineLength(line: string)
    requires Words(line) != []
    ensures |RejoinLine(line)| <= |line|
    ensures |RejoinLine(line)| == |line| ==> TightLine(line)
    ensures TightLine(line) ==> RejoinLine(line) == line
  {
    JoinSplit(' ', line);
    NonEmptyLength(' ', Split(' ', line));
    if TightLine(line) {
      NonEmptyAll(Split(' ', line));
    }
  }

  lemma {:induction false} RejoinedLength(lines: seq<string>)
    requires Rejoined(lines) != []
    ensures |Rejoined(lines)| <= |lines|
    ensures |Join('\n', Rejoined(lines))| + (|lines| - |Rejoined(lines)|) <= |Join('\n', lines)|
    ensures |Join('\n', Rejoined(lines))| == |Join('\n', lines)| ==>
              forall i :: 0 <= i < |lines| ==> TightLine(lines[i])
  {
    var rest := lines[1..];
    var keep := Words(lines[0]) != [];
    if keep {
      RejoinLineLength(lines[0]);
      assert Rejoined(lines)[1..] == Rejoined(rest);
    }
    if Rejoined(rest) != [] {
      RejoinedLength(rest);
    } else {
      assert Rejoined(lines) == [RejoinLine(lines[0])];
      JoinAtLeast('\n', lines);
    }
  }

  lemma {:induction false} JoinAtLeast(sep: char, parts: seq<string>)
    requires parts != []
    ensures |Join(sep, parts)| >= |parts[0]| + |parts| - 1
  {
    if |parts| > 1 {
      JoinAtLeast(sep, parts[1..]);
    }
  }

  lemma {:induction false} RejoinedTight(lines: seq<string>)
    requires forall i :: 0 <= i < |lines| ==> TightLine(lines[i])
    ensures Rejoined(lines) == lines
  {
    if lines != [] {
      TightLineHasWords(lines[0]);
      RejoinLineLength(lines[0]);
      RejoinedTight(lines[1..]);
      assert [lines[0]] + lines[1..] == lines;
    }
  }

  lemma TightLineHasWords(line: string)
    requires TightLine(line)
    ensures Words(line) == Split(' ', line) != []
  {
    NonEmptyAll(Split(' ', line));
  }

  /** Taking a text apart into words and putting it together again changes nothing exactly when it is tight. */
  lemma RejoinIsIdentity(text: string)
    requires text != ""
    ensures Join('\n', Rejoined(Lines(text))) == text <==> Tight(text)
  {
    JoinSplit('\n', text);
    if Tight(text) {
      RejoinedTight(Lines(text));
    } else if Rejoined(Lines(text)) != [] {
      RejoinedLength(Lines(text));
    }
  }
}
