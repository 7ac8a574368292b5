/** Text and its lines: universal line ends on reading, and splitting at newlines. */
module TextLines {
  predicate OneLine(s: string) {
    forall i :: 0 <= i < |s| ==> s[i] != '\n' && s[i] != '\r'
  }

  /** The first line of a text. */
  function FirstLine(s: string): (line: string)
    ensures OneLine(line)
    ensures OneLine(s) ==> line == s
  {
    if s == "" || s[0] == '\n' || s[0] == '\r' then ""
    else
      assert OneLine(s) ==> OneLine(s[1..]);
      [s[0]] + FirstLine(s[1..])
  }

  /** Every line end becomes a newline. */
  function Translate(s: string): string {
    if s == "" then ""
    else if s[0] == '\r' then "\n" + Translate(if |s| > 1 && s[1] == '\n' then s[2..] else s[1..])
    else [s[0]] + Translate(s[1..])
  }

  /** The pieces between newlines; the last one is empty when the text ends in a newline. */
  function Split(s: string): (pieces: seq<string>)
    ensures pieces != []
  {
    if s == "" then [""] else Prepend(s[0], Split(s[1..]))
  }

  function Prepend(c: char, pieces: seq<string>): (r: seq<string>)
    requires pieces != []
    ensures r != []
  {
    if c == '\n' then [""] + pieces else [[c] + pieces[0]] + pieces[1..]
  }

  /** The lines of a file, as an iteration over it gives them. */
  function LinesOf(text: string): seq<string> {
    var pieces := Split(text);
    if pieces[|pieces| - 1] == "" then pieces[..|pieces| - 1] else pieces
  }

  function JoinLines(lines: seq<string>): string {
    if lines == [] then "" else if |lines| == 1 then lines[0] else lines[0] + "\n" + JoinLines(lines[1..])
  }

  lemma {:induction false} NothingToTranslate(s: string)
    requires '\r' !in s
    ensures Translate(s) == s
  {
    if s != "" {
      var rest := s[1..];
      assert s == [s[0]] + rest;
      assert '\r' !in rest;
      NothingToTranslate(rest);
      assert Translate(s) == [s[0]] + Translate(rest);
    }
  }

  lemma PrependConcat(c: char, a: seq<string>, b: seq<string>)
    requires a != []
    ensures Prepend(c, a + b) == Prepend(c, a) + b
  {
    assert (a + b)[0] == a[0] && (a + b)[1..] == a[1..] + b;
  }

  lemma {:induction false} SplitAtNewline(a: string, b: string)
    ensures Split(a + "\n" + b) == Split(a) + Split(b)
  {
    var s := a + "\n" + b;
    if a == "" {
      assert s[0] == '\n' && s[1..] == b;
    } else {
      hide Prepend;
      assert s[0] == a[0] && s[1..] == a[1..] + "\n" + b;
      SplitAtNewline(a[1..], b);
      PrependConcat(a[0], Split(a[1..]), Split(b));
    }
  }

  lemma {:induction false} SplitOneLine(s: string)
    requires OneLine(s)
    ensures Split(s) == [s]
  {
    if s != "" {
      SplitOneLine(s[1..]);
      assert [s[0]] + s[1..] == s;
    }
  }

  lemma SplitNothing()
    ensures Split("") == [""]
  {
  }

  /** Joining lines and splitting them again. */
  lemma {:induction false} SplitJoined(lines: seq<string>)
    requires lines != [] && forall l :: l in lines ==> OneLine(l)
    ensures Split(JoinLines(lines)) == lines
  {
    hide Split, OneLine;
    assert lines[0] in lines;
    SplitOneLine(lines[0]);
    if |lines| > 1 {
      assert forall l :: l in lines[1..] ==> l in lines;
      SplitJoined(lines[1..]);
      SplitAtNewline(lines[0], JoinLines(lines[1..]));
      assert lines == [lines[0]] + lines[1..];
    }
  }

  /** Reading can be done piece by piece unless a piece ends in the middle of a line end. */
  lemma {:induction false} TranslateConcat(a: string, b: string)
    requires a == "" || a[|a| - 1] != '\r'
    ensures Translate(a + b) == Translate(a) + Translate(b)
    decreases |a|
  {
    if a == "" {
      assert a + b == b;
    } else {
      var rest := if a[0] == '\r' && a[1] == '\n' then a[2..] else a[1..];
      assert (a + b)[|a| - |rest|..] == rest + b;
      TranslateConcat(rest, b);
    }
  }

  /** Each of the three line ends becomes one newline; other characters stay. */
  lemma LineEnds(a: string, b: string)
    requires a == "" || a[|a| - 1] != '\r'
    ensures Translate(a + "\n" + b) == Translate(a) + "\n" + Translate(b)
    ensures Translate(a + "\r\n" + b) == Translate(a) + "\n" + Translate(b)
    ensures (b == "" || b[0] != '\n') ==> Translate(a + "\r" + b) == Translate(a) + "\n" + Translate(b)
    ensures forall c :: c != '\r' && c != '\n' ==> Translate(a + [c] + b) == Translate(a) + [c] + Translate(b)
  {
    OneEnd(a, "\n", b);
    OneEnd(a, "\r\n", b);
    if b == "" || b[0] != '\n' {
      OneEnd(a, "\r", b);
    }
    forall c | c != '\r' && c != '\n' ensures Translate(a + [c] + b) == Translate(a) + [c] + Translate(b) {
      OneChar(a, c, b);
    }
  }

  lemma OneEnd(a: string, end: string, b: string)
    requires a == "" || a[|a| - 1] != '\r'
    requires end == "\n" || end == "\r\n" || (end == "\r" && (b == "" || b[0] != '\n'))
    ensures Translate(a + end + b) == Translate(a) + "\n" + Translate(b)
  {
    TranslateConcat(a, end + b);
    EndFirst(end, b);
    hide Translate;
    assert a + end + b == a + (end + b);
    assert Translate(a) + "\n" + Translate(b) == Translate(a) + ("\n" + Translate(b));
  }

  lemma EndFirst(end: string, b: string)
    requires end == "\n" || end == "\r\n" || (end == "\r" && (b == "" || b[0] != '\n'))
    ensures Translate(end + b) == "\n" + Translate(b)
  {
    assert (end + b)[|end|..] == b;
  }

  lemma OneChar(a: string, c: char, b: string)
    requires (a == "" || a[|a| - 1] != '\r') && c != '\r'
    ensures Translate(a + [c] + b) == Translate(a) + [c] + Translate(b)
  {
    TranslateConcat(a, [c] + b);
    assert ([c] + b)[1..] == b;
    assert Translate([c] + b) == [c] + Translate(b);
    assert a + [c] + b == a + ([c] + b);
    assert Translate(a) + [c] + Translate(b) == Translate(a) + ([c] + Translate(b));
  }

  /** A text that ends in a newline still does when it is read. */
  lemma {:induction false} TranslateEnds(a: string)
    ensures Complete(Translate(a + "\n"))
    decreases |a|
  {
    var s := a + "\n";
    if a != "" {
      if a[0] == '\r' && s[1] == '\n' {
        if |a| > 1 {
          assert s[2..] == a[2..] + "\n";
          TranslateEnds(a[2..]);
        }
      } else {
        assert s[1..] == a[1..] + "\n";
        TranslateEnds(a[1..]);
      }
    }
  }

  /** A text of complete lines. */
  predicate Complete(text: string) {
    text != "" && text[|text| - 1] == '\n'
  }

  /** The text without its last newline. */
  function Cut(text: string): string {
    if Complete(text) then text[..|text| - 1] else text
  }

  lemma CutComplete(text: string)
    requires Complete(text)
    ensures text == Cut(text) + "\n"
    ensures Split(text) == Split(Cut(text)) + [""] && LinesOf(text) == Split(Cut(text))
  {
    assert text == Cut(text) + "\n" + "";
    SplitAtNewline(Cut(text), "");
    SplitNothing();
    var pieces := Split(Cut(text)) + [""];
    assert pieces[..|pieces| - 1] == Split(Cut(text));
  }

  lemma {:induction false} NoReturnsLeft(s: string)
    ensures '\r' !in Translate(s)
    decreases |s|
  {
    if s != "" {
      if s[0] == '\r' {
        NoReturnsLeft(if |s| > 1 && s[1] == '\n' then s[2..] else s[1..]);
      } else {
        NoReturnsLeft(s[1..]);
      }
    }
  }

  lemma {:induction false} PiecesAreLines(s: string)
    requires '\r' !in s
    ensures forall l :: l in Split(s) ==> OneLine(l)
  {
    if s != "" {
      var rest := Split(s[1..]);
      PiecesAreLines(s[1..]);
      assert rest[0] in rest && s[0] in s;
      forall l | l in Split(s) ensures OneLine(l) {
        if l !in rest {
          assert l == "" || l == [s[0]] + rest[0];
        }
      }
    }
  }

  /** Everything read from a file is one line. */
  lemma ReadLinesAreLines(text: string)
    ensures forall l :: l in Split(Translate(text)) ==> OneLine(l)
  {
    NoReturnsLeft(text);
    PiecesAreLines(Translate(text));
  }

  /** The first piece read is the first line. */
  lemma {:induction false} FirstPiece(s: string)
    ensures Split(Translate(s))[0] == FirstLine(s)
  {
    if s != "" && s[0] != '\n' && s[0] != '\r' {
      FirstPiece(s[1..]);
      assert Translate(s)[1..] == Translate(s[1..]);
    }
  }

  lemma {:induction false} FirstLineOfMore(s: string, more: string)
    ensures FirstLine(s + "\n" + more) == FirstLine(s)
  {
    var all := s + "\n" + more;
    if s != "" && s[0] != '\n' && s[0] != '\r' {
      assert all[1..] == s[1..] + "\n" + more;
      FirstLineOfMore(s[1..], more);
    }
  }
}
