/**
 The journal file: entries are appended as text and read back line by line. Reading turns every
 line end into a newline, as text files do; a line is given without its newline.
 */
module Journal {
  import opened Collections
  import opened TextLines

  /** What `add_entry` is given, and the time it is called. */
  datatype Entry = Entry(time: string, title: string, project: Option<string>, content: string, tags: seq<string>)

  /** What is read back; the content is a list of lines. */
  datatype Parsed = Parsed(title: string, project: Option<string>, content: seq<string>)

  // ---- text ----

  predicate IsSpace(c: char) {
    || c == ' ' || '\t' <= c <= '\r' || '\U{1C}' <= c <= '\U{1F}' || c == '\U{85}' || c == '\U{A0}' || c == '\U{1680}'
    || '\U{2000}' <= c <= '\U{200A}' || c == '\U{2028}' || c == '\U{2029}' || c == '\U{202F}' || c == '\U{205F}'
    || c == '\U{3000}'
  }

  function StripRight(s: string): string {
    if s != "" && IsSpace(s[|s| - 1]) then StripRight(s[..|s| - 1]) else s
  }

  function StripLeft(s: string): string {
    if s != "" && IsSpace(s[0]) then StripLeft(s[1..]) else s
  }

  function Strip(s: string): string {
    StripLeft(StripRight(s))
  }

  predicate StartsWith(s: string, prefix: string) {
    prefix <= s
  }

  /** A decimal digit of any script, as a pattern's `\d` matches it. */
  predicate IsDigit(c: char) {
    '0' <= c <= '9' || OtherDigit(c)
  }

  /** The decimal digits of Unicode 14 outside ASCII. */
  predicate OtherDigit(c: char) {
    || '\U{660}' <= c <= '\U{669}' || '\U{6F0}' <= c <= '\U{6F9}' || '\U{7C0}' <= c <= '\U{7C9}'
    || '\U{966}' <= c <= '\U{96F}' || '\U{9E6}' <= c <= '\U{9EF}' || '\U{A66}' <= c <= '\U{A6F}'
    || '\U{AE6}' <= c <= '\U{AEF}' || '\U{B66}' <= c <= '\U{B6F}' || '\U{BE6}' <= c <= '\U{BEF}'
    || '\U{C66}' <= c <= '\U{C6F}' || '\U{CE6}' <= c <= '\U{CEF}' || '\U{D66}' <= c <= '\U{D6F}'
    || '\U{DE6}' <= c <= '\U{DEF}' || '\U{E50}' <= c <= '\U{E59}' || '\U{ED0}' <= c <= '\U{ED9}'
    || '\U{F20}' <= c <= '\U{F29}' || '\U{1040}' <= c <= '\U{1049}' || '\U{1090}' <= c <= '\U{1099}'
    || '\U{17E0}' <= c <= '\U{17E9}' || '\U{1810}' <= c <= '\U{1819}' || '\U{1946}' <= c <= '\U{194F}'
    || '\U{19D0}' <= c <= '\U{19D9}' || '\U{1A80}' <= c <= '\U{1A89}' || '\U{1A90}' <= c <= '\U{1A99}'
    || '\U{1B50}' <= c <= '\U{1B59}' || '\U{1BB0}' <= c <= '\U{1BB9}' || '\U{1C40}' <= c <= '\U{1C49}'
    || '\U{1C50}' <= c <= '\U{1C59}' || '\U{A620}' <= c <= '\U{A629}' || '\U{A8D0}' <= c <= '\U{A8D9}'
    || '\U{A900}' <= c <= '\U{A909}' || '\U{A9D0}' <= c <= '\U{A9D9}' || '\U{A9F0}' <= c <= '\U{A9F9}'
    || '\U{AA50}' <= c <= '\U{AA59}' || '\U{ABF0}' <= c <= '\U{ABF9}' || '\U{FF10}' <= c <= '\U{FF19}'
    || '\U{104A0}' <= c <= '\U{104A9}' || '\U{10D30}' <= c <= '\U{10D39}' || '\U{11066}' <= c <= '\U{1106F}'
    || '\U{110F0}' <= c <= '\U{110F9}' || '\U{11136}' <= c <= '\U{1113F}' || '\U{111D0}' <= c <= '\U{111D9}'
    || '\U{112F0}' <= c <= '\U{112F9}' || '\U{11450}' <= c <= '\U{11459}' || '\U{114D0}' <= c <= '\U{114D9}'
    || '\U{11650}' <= c <= '\U{11659}' || '\U{116C0}' <= c <= '\U{116C9}' || '\U{11730}' <= c <= '\U{11739}'
    || '\U{118E0}' <= c <= '\U{118E9}' || '\U{11950}' <= c <= '\U{11959}' || '\U{11C50}' <= c <= '\U{11C59}'
    || '\U{11D50}' <= c <= '\U{11D59}' || '\U{11DA0}' <= c <= '\U{11DA9}' || '\U{16A60}' <= c <= '\U{16A69}'
    || '\U{16AC0}' <= c <= '\U{16AC9}' || '\U{16B50}' <= c <= '\U{16B59}' || '\U{1D7CE}' <= c <= '\U{1D7FF}'
    || '\U{1E140}' <= c <= '\U{1E149}' || '\U{1E2F0}' <= c <= '\U{1E2F9}' || '\U{1E950}' <= c <= '\U{1E959}'
    || '\U{1FBF0}' <= c <= '\U{1FBF9}'
  }

  predicate IsTime(t: string) {
    |t| == 5 && IsDigit(t[0]) && IsDigit(t[1]) && t[2] == ':' && IsDigit(t[3]) && IsDigit(t[4])
  }

  // ---- headers ----

  function Header(e: Entry): string {
    if e.project.Some? && e.project.value != ""
    then "## " + e.time + " - [" + e.project.value + "] " + e.title
    else "## " + e.time + " - " + e.title
  }

  /** The part after `## HH:MM - `, if the line starts that way. */
  function AfterTime(line: string): Option<string> {
    if |line| >= 11 && line[..3] == "## " && IsTime(line[3..8]) && line[8..11] == " - " then Some(line[11..]) else None
  }

  function IndexOf(s: string, c: char): nat
    ensures IndexOf(s, c) <= |s|
    ensures IndexOf(s, c) < |s| ==> s[IndexOf(s, c)] == c
    ensures forall i :: 0 <= i < IndexOf(s, c) ==> s[i] != c
  {
    if s == "" || s[0] == c then 0
    else
      assert forall i :: 0 < i < |s| ==> s[i] == s[1..][i - 1];
      1 + IndexOf(s[1..], c)
  }

  /** A non-empty tag in brackets followed by a blank: `[tag] `. */
  function Tag(rest: string): Option<string> {
    var k := IndexOf(rest, ']');
    if |rest| > 0 && rest[0] == '[' && 2 <= k && k + 1 < |rest| && rest[k + 1] == ' ' then Some(rest[1..k]) else None
  }

  function ParseProject(line: string): Option<string> {
    match AfterTime(line)
    case Some(rest) => Tag(rest)
    case None => None
  }

  function ParseTitle(line: string): string {
    match AfterTime(line)
    case Some(rest) =>
      if Tag(rest).Some? && |Tag(rest).value| + 3 < |rest| then Strip(rest[|Tag(rest).value| + 3..])
      else if rest != "" then Strip(rest)
      else Strip(line)
    case None => Strip(line)
  }

  /** The project a written entry belongs to: an empty id counts as none. */
  function ProjectOf(e: Entry): Option<string> {
    if e.project == Some("") then None else e.project
  }

  /** What a caller can check before writing. */
  predicate HeaderSafe(e: Entry) {
    && e.title != "" && Strip(e.title) == e.title && OneLine(e.title)
    && match ProjectOf(e)
       case Some(p) => ']' !in p && OneLine(p)
       case None => Tag(e.title) == None
  }

  lemma AfterTimeOf(e: Entry)
    requires IsTime(e.time)
    ensures AfterTime(Header(e)) == Some(match ProjectOf(e) case Some(p) => "[" + p + "] " + e.title case None => e.title)
  {
    var rest := match ProjectOf(e) case Some(p) => "[" + p + "] " + e.title case None => e.title;
    assert Header(e) == "## " + e.time + " - " + rest;
    assert Header(e)[3..8] == e.time;
    assert Header(e)[8..11] == " - ";
    assert Header(e)[11..] == rest;
  }

  /** A line has a time exactly when it is one, with its marks around it, and something after. */
  lemma AfterTimeIs(line: string, rest: string)
    ensures AfterTime(line) == Some(rest) <==>
              exists t: string :: line == "## " + t + " - " + rest && |t| == 5
                                  && IsDigit(t[0]) && IsDigit(t[1]) && t[2] == ':' && IsDigit(t[3]) && IsDigit(t[4])
  {
    hide IsDigit;
    if AfterTime(line) == Some(rest) {
      var t := line[3..8];
      assert line == "## " + t + " - " + rest;
    }
    if t: string :| line == "## " + t + " - " + rest && |t| == 5
                    && IsDigit(t[0]) && IsDigit(t[1]) && t[2] == ':' && IsDigit(t[3]) && IsDigit(t[4]) {
      assert line[..3] == "## " && line[3..8] == t && line[8..11] == " - " && line[11..] == rest;
    }
  }

  /** A text has a tag exactly when it begins with one: not empty, without closing bracket, in brackets, and a blank. */
  lemma TagIs(rest: string, p: string)
    ensures Tag(rest) == Some(p) <==> p != "" && ']' !in p && exists title: string :: rest == "[" + p + "] " + title
  {
    var k := IndexOf(rest, ']');
    if Tag(rest) == Some(p) {
      assert rest == "[" + p + "] " + rest[k + 2..];
      assert forall i :: 0 <= i < |p| ==> p[i] == rest[i + 1];
    }
    if p != "" && ']' !in p && exists title: string :: rest == "[" + p + "] " + title {
      var title: string :| rest == "[" + p + "] " + title;
      TagOf(p, title);
    }
  }

  /** A tag that is read back holds no closing bracket and is followed by the rest. */
  lemma TagOf(p: string, title: string)
    requires p != ""
    ensures ']' !in p ==> Tag("[" + p + "] " + title) == Some(p)
    ensures ']' in p ==> Tag("[" + p + "] " + title) != Some(p)
  {
    var rest := "[" + p + "] " + title;
    var k := IndexOf(rest, ']');
    assert rest[|p| + 1] == ']' && rest[|p| + 2] == ' ';
    assert forall i :: 1 <= i <= |p| ==> rest[i] == p[i - 1];
    if ']' !in p {
      assert k == |p| + 1;
      assert rest[1..k] == p;
    } else {
      var j :| 0 <= j < |p| && p[j] == ']';
      assert rest[j + 1] == ']';
      assert k <= j + 1 <= |p|;
      assert |rest[1..k]| < |p| || k == 0;
    }
  }

  lemma {:induction false} StripRightShape(s: string)
    ensures StripRight(s) <= s && (StripRight(s) == "" || !IsSpace(StripRight(s)[|StripRight(s)| - 1]))
  {
    if s != "" && IsSpace(s[|s| - 1]) {
      StripRightShape(s[..|s| - 1]);
    }
  }

  lemma {:induction false} StripLeftShape(s: string)
    ensures |StripLeft(s)| <= |s| && StripLeft(s) == s[|s| - |StripLeft(s)|..]
    ensures StripLeft(s) == "" || !IsSpace(StripLeft(s)[0])
  {
    if s != "" && IsSpace(s[0]) {
      StripLeftShape(s[1..]);
    }
  }

  lemma StripTwice(s: string)
    ensures Strip(Strip(s)) == Strip(s)
  {
    var r := StripRight(s);
    StripRightShape(s);
    StripLeftShape(r);
    var t := StripLeft(r);
    if t != "" {
      assert t[|t| - 1] == r[|r| - 1];
    }
    assert StripRight(t) == t && StripLeft(t) == t;
  }

  /** Stripping takes off the blanks at both ends and nothing else. */
  lemma StrippedIs(s: string) returns (i: nat, j: nat)
    ensures i <= j <= |s| && Strip(s) == s[i..j]
    ensures forall k :: 0 <= k < i || j <= k < |s| ==> IsSpace(s[k])
    ensures i < j ==> !IsSpace(s[i]) && !IsSpace(s[j - 1])
  {
    hide StripLeft, StripRight, IsSpace;
    j := RightPart(s);
    i := LeftPart(s[..j]);
    assert s[..j][i..] == s[i..j];
    assert forall k :: 0 <= k < i ==> s[k] == s[..j][k];
    if i < j {
      assert s[i] == s[..j][i];
    }
  }

  lemma {:induction false} RightPart(s: string) returns (j: nat)
    ensures j <= |s| && StripRight(s) == s[..j]
    ensures forall k :: j <= k < |s| ==> IsSpace(s[k])
    ensures j > 0 ==> !IsSpace(s[j - 1])
  {
    if s != "" && IsSpace(s[|s| - 1]) {
      j := RightPart(s[..|s| - 1]);
      assert s[..|s| - 1][..j] == s[..j];
    } else {
      j := |s|;
    }
  }

  lemma {:induction false} LeftPart(s: string) returns (i: nat)
    ensures i <= |s| && StripLeft(s) == s[i..]
    ensures forall k :: 0 <= k < i ==> IsSpace(s[k])
    ensures i < |s| ==> !IsSpace(s[i])
  {
    if s != "" && IsSpace(s[0]) {
      i := LeftPart(s[1..]);
      assert s[1..][i..] == s[i + 1..];
      assert forall k :: 0 < k <= i ==> s[k] == s[1..][k - 1];
      i := i + 1;
    } else {
      i := 0;
    }
  }

  /** A header is read back as its title and project exactly when the entry is safe. */
  lemma HeaderRoundTrip(e: Entry)
    requires IsTime(e.time)
    ensures var line := FirstLine(Header(e));
            ParseTitle(line) == e.title && ParseProject(line) == ProjectOf(e) <==> HeaderSafe(e)
    ensures HeaderSafe(e) ==> OneLine(Header(e))
  {
    if OneLine(e.title) && (ProjectOf(e).Some? ==> OneLine(ProjectOf(e).value)) {
      HeaderIsLine(e);
      LineRoundTrip(e);
    } else {
      ParsedFromLine(FirstLine(Header(e)));
    }
  }

  lemma HeaderIsLine(e: Entry)
    requires IsTime(e.time) && OneLine(e.title) && (ProjectOf(e).Some? ==> OneLine(ProjectOf(e).value))
    ensures OneLine(Header(e))
  {
    TimeIsLine(e.time);
    hide IsTime;
    assert OneLine("## ") && OneLine(" - ") && OneLine("] ");
  }

  lemma TimeIsLine(t: string)
    requires IsTime(t)
    ensures OneLine(t)
  {
    assert IsDigit(t[0]) && IsDigit(t[1]) && IsDigit(t[3]) && IsDigit(t[4]);
    DigitIsNoLineEnd('\n');
    DigitIsNoLineEnd('\r');
    hide IsDigit;
  }

  lemma DigitIsNoLineEnd(c: char)
    requires c == '\n' || c == '\r'
    ensures !IsDigit(c)
  {
  }

  /** What is read from a line has no line end. */
  lemma ParsedFromLine(line: string)
    requires OneLine(line)
    ensures OneLine(ParseTitle(line))
    ensures ParseProject(line).Some? ==> OneLine(ParseProject(line).value)
  {
    StrippedFromLine(line);
    hide IsTime;
    if AfterTime(line).Some? {
      var rest := AfterTime(line).value;
      assert OneLine(rest);
      hide AfterTime, Strip;
      ParsedFromRest(rest);
    }
  }

  lemma ParsedFromRest(rest: string)
    requires OneLine(rest)
    ensures Tag(rest).Some? ==> OneLine(Tag(rest).value)
    ensures Tag(rest).Some? && |Tag(rest).value| + 3 < |rest| ==> OneLine(Strip(rest[|Tag(rest).value| + 3..]))
    ensures OneLine(Strip(rest))
  {
    hide Strip;
    StrippedFromLine(rest);
    if Tag(rest).Some? && |Tag(rest).value| + 3 < |rest| {
      StrippedFromLine(rest[|Tag(rest).value| + 3..]);
    }
  }

  lemma StrippedFromLine(s: string)
    requires OneLine(s)
    ensures OneLine(Strip(s))
  {
    StripRightShape(s);
    StripLeftShape(StripRight(s));
  }

  lemma LineRoundTrip(e: Entry)
    requires IsTime(e.time) && OneLine(e.title) && (ProjectOf(e).Some? ==> OneLine(ProjectOf(e).value))
    ensures ParseTitle(Header(e)) == e.title && ParseProject(Header(e)) == ProjectOf(e) <==> HeaderSafe(e)
  {
    AfterTimeOf(e);
    hide IsTime, Header, Strip, Tag, AfterTime;
    match ProjectOf(e)
    case Some(p) => TaggedRoundTrip(e, Header(e), p);
    case None => UntaggedRoundTrip(e, Header(e));
  }

  lemma TaggedRoundTrip(e: Entry, line: string, p: string)
    requires ProjectOf(e) == Some(p) && AfterTime(line) == Some("[" + p + "] " + e.title) && OneLine(e.title) && OneLine(p)
    ensures ParseTitle(line) == e.title && ParseProject(line) == Some(p) <==> HeaderSafe(e)
  {
    var rest := "[" + p + "] " + e.title;
    hide AfterTime, Tag, StripLeft, StripRight, OneLine, IsSpace;
    TagOf(p, e.title) by { assert p != ""; }
    if ']' !in p {
      assert rest[|p| + 3..] == e.title && rest[0] == '[';
      StripTwice(e.title);
      NotBlank(rest, 0) by { BracketIsNoSpace(); }
    }
  }

  lemma BracketIsNoSpace()
    ensures !IsSpace('[') && !IsSpace('#')
  {
  }

  lemma UntaggedRoundTrip(e: Entry, line: string)
    requires ProjectOf(e) == None && AfterTime(line) == Some(e.title) && OneLine(e.title)
    ensures ParseTitle(line) == e.title && ParseProject(line) == None <==> HeaderSafe(e)
  {
    assert |line| >= 11 && line[0] == "## "[0] by { assert line[..3] == "## "; }
    hide AfterTime, Tag, StripLeft, StripRight, OneLine, IsSpace;
    if e.title == "" {
      NotBlank(line, 0) by { BracketIsNoSpace(); }
    } else {
      StripTwice(e.title);
    }
  }

  lemma {:induction false} NotBlank(s: string, i: nat)
    requires i < |s| && !IsSpace(s[i])
    ensures Strip(s) != ""
  {
    KeepsRight(s, i);
    KeepsLeft(StripRight(s), i);
  }

  lemma {:induction false} KeepsRight(s: string, i: nat)
    requires i < |s| && !IsSpace(s[i])
    ensures i < |StripRight(s)| && StripRight(s)[i] == s[i]
  {
    if IsSpace(s[|s| - 1]) {
      KeepsRight(s[..|s| - 1], i);
    }
  }

  lemma {:induction false} KeepsLeft(s: string, i: nat)
    requires i < |s| && !IsSpace(s[i])
    ensures StripLeft(s) != ""
  {
    if IsSpace(s[0]) {
      KeepsLeft(s[1..], i - 1);
    }
  }

  // ---- entries as text ----

  function JoinTags(tags: seq<string>): string {
    if tags == [] then "" else if |tags| == 1 then tags[0] else tags[0] + ", " + JoinTags(tags[1..])
  }

  /** The body, with the tags on a line of their own before it. */
  function BodyText(e: Entry): string {
    if e.tags == [] then e.content
    else
      var tagsLine := "**Tags:** " + JoinTags(e.tags);
      if Strip(e.content) == "" then tagsLine else tagsLine + "\n\n" + e.content
  }

  /** The header, and the body unless it is blank. */
  function Chunk(e: Entry): string {
    Header(e) + "\n" + if Strip(BodyText(e)) == "" then "" else BodyText(e) + "\n"
  }

  /** What is appended: an empty line before that. */
  function EntryText(e: Entry): string {
    "\n" + Chunk(e)
  }

  function DayHeader(day: string): string {
    "# Journal - " + day
  }

  function FileText(day: string, entries: seq<Entry>): string {
    if entries == [] then DayHeader(day) + "\n"
    else FileText(day, entries[..|entries| - 1]) + EntryText(entries[|entries| - 1])
  }

  // ---- the same as lines ----

  /** The lines of an entry as they are read. */
  function Lines(e: Entry): (lines: seq<string>)
    ensures lines != []
  {
    Split(Cut(Translate(Chunk(e))))
  }

  /** The body by itself, as it is read. */
  function Body(e: Entry): seq<string> {
    if Strip(BodyText(e)) == "" then [] else Split(Cut(Translate(BodyText(e) + "\n")))
  }

  function EntryLines(e: Entry): seq<string> {
    [""] + Lines(e)
  }

  function AllLines(entries: seq<Entry>): seq<string> {
    if entries == [] then [] else AllLines(entries[..|entries| - 1]) + EntryLines(entries[|entries| - 1])
  }

  function File(day: string, entries: seq<Entry>): seq<string> {
    [DayHeader(day)] + AllLines(entries)
  }

  lemma ChunkComplete(e: Entry)
    ensures Complete(Translate(Chunk(e)))
    ensures Translate(Chunk(e)) == Cut(Translate(Chunk(e))) + "\n"
  {
    var h, b := Header(e), BodyText(e);
    hide Header, BodyText, Strip, Translate;
    if Strip(b) == "" {
      assert Chunk(e) == h + "\n";
      TranslateEnds(h);
    } else {
      assert Chunk(e) == (h + "\n" + b) + "\n";
      TranslateEnds(h + "\n" + b);
    }
    CutComplete(Translate(Chunk(e)));
  }

  /** The first line of an entry is the first line of its header, and starts like a header. */
  lemma LinesStart(e: Entry)
    ensures Lines(e)[0] == FirstLine(Header(e)) && StartsWith(Lines(e)[0], "## ")
    ensures forall l :: l in Lines(e) ==> OneLine(l)
  {
    HeaderStarts(e);
    ChunkComplete(e);
    FirstPiece(Chunk(e));
    ReadLinesAreLines(Chunk(e));
    CutComplete(Translate(Chunk(e)));
    var more := if Strip(BodyText(e)) == "" then "" else BodyText(e) + "\n";
    FirstLineOfMore(Header(e), more);
    hide Header, BodyText, Strip, Translate, Split, FirstLine, OneLine;
    assert forall l :: l in Lines(e) ==> l in Split(Translate(Chunk(e)));
  }

  lemma HeaderStarts(e: Entry)
    ensures StartsWith(FirstLine(Header(e)), "## ")
  {
    var h := Header(e);
    assert h == ['#'] + (['#'] + ([' '] + h[3..]));
    hide Header;
    FirstLineStep('#', ['#'] + ([' '] + h[3..]));
    FirstLineStep('#', [' '] + h[3..]);
    FirstLineStep(' ', h[3..]);
    assert FirstLine(h)[..3] == "## ";
  }

  lemma FirstLineStep(c: char, s: string)
    requires c != '\n' && c != '\r'
    ensures FirstLine([c] + s) == [c] + FirstLine(s)
  {
    assert ([c] + s)[1..] == s;
  }

  /** With a header on one line, the lines are the header and the body. */
  lemma LinesOfSafe(e: Entry)
    requires OneLine(Header(e))
    ensures Lines(e) == [Header(e)] + Body(e)
  {
    var h, b := Header(e), BodyText(e);
    assert '\r' !in h + "\n";
    hide Header, BodyText, Strip, Translate, Split, OneLine;
    NothingToTranslate(h + "\n");
    SplitOneLine(h);
    if Strip(b) == "" {
      assert Chunk(e) == h + "\n";
      assert Cut(h + "\n") == h;
    } else {
      assert Chunk(e) == (h + "\n") + (b + "\n");
      TranslateConcat(h + "\n", b + "\n");
      TranslateEnds(b);
      CutComplete(Translate(b + "\n"));
      var read := Cut(Translate(b + "\n"));
      assert Translate(Chunk(e)) == (h + "\n" + read) + "\n";
      assert Cut((h + "\n" + read) + "\n") == h + "\n" + read;
      SplitAtNewline(h, read);
    }
  }

  /** Two texts of complete lines, an empty line between them. */
  lemma SplitBoth(a: string, b: string)
    requires Complete(a) && Complete(b)
    ensures Complete(a + ("\n" + b)) && Split(a + ("\n" + b)) == Split(Cut(a)) + [""] + Split(Cut(b)) + [""]
  {
    hide Split;
    CutComplete(a);
    CutComplete(b);
    var rest := "\n" + b;
    assert rest == "" + "\n" + b;
    SplitAtNewline("", b);
    SplitNothing();
    assert a + rest == Cut(a) + "\n" + rest;
    SplitAtNewline(Cut(a), rest);
    assert (a + rest)[|a + rest| - 1] == b[|b| - 1];
  }

  lemma ReadNext(text: string, e: Entry)
    requires Complete(text)
    ensures Complete(text + EntryText(e))
    ensures Translate(text + EntryText(e)) == Translate(text) + ("\n" + Translate(Chunk(e)))
  {
    var chunk := Chunk(e);
    assert chunk != "" && chunk[|chunk| - 1] == '\n';
    hide Chunk;
    assert ("\n" + chunk)[1..] == chunk;
    assert Translate("\n" + chunk) == "\n" + Translate(chunk);
    TranslateConcat(text, "\n" + chunk);
    assert (text + ("\n" + chunk))[|text + ("\n" + chunk)| - 1] == chunk[|chunk| - 1];
  }

  lemma SplitStep(text: string, lines: seq<string>, e: Entry)
    requires Complete(text) && Complete(Translate(text)) && Split(Translate(text)) == lines + [""]
    ensures Complete(text + EntryText(e)) && Complete(Translate(text + EntryText(e)))
    ensures Split(Translate(text + EntryText(e))) == lines + EntryLines(e) + [""]
  {
    hide Translate, Split, Chunk, EntryText, Complete, Cut;
    ReadNext(text, e);
    ChunkComplete(e);
    var before := Translate(text);
    SplitBoth(before, Translate(Chunk(e)));
    CutComplete(before);
    assert (Split(Cut(before)) + [""])[..|Split(Cut(before))|] == Split(Cut(before)) && (lines + [""])[..|lines|] == lines;
    assert Split(Cut(before)) == lines;
  }

  /** What is read from the file is the file's lines, and the empty piece after the last newline. */
  lemma {:induction false} FileAsLines(day: string, entries: seq<Entry>)
    requires OneLine(day)
    ensures Complete(FileText(day, entries)) && Complete(Translate(FileText(day, entries)))
    ensures Split(Translate(FileText(day, entries))) == File(day, entries) + [""]
    ensures LinesOf(Translate(FileText(day, entries))) == File(day, entries)
  {
    hide EntryLines, EntryText, DayHeader, Split, OneLine, Translate, Complete, LinesOf;
    if entries == [] {
      DayHeaderAsLine(day);
    } else {
      var n := |entries| - 1;
      FileAsLines(day, entries[..n]);
      SplitStep(FileText(day, entries[..n]), File(day, entries[..n]), entries[n]);
      assert File(day, entries) == File(day, entries[..n]) + EntryLines(entries[n]);
    }
    LastPieceEmpty(Translate(FileText(day, entries)), File(day, entries));
  }

  lemma LastPieceEmpty(text: string, lines: seq<string>)
    requires Split(text) == lines + [""]
    ensures LinesOf(text) == lines
  {
    hide Split;
    assert (lines + [""])[..|lines|] == lines;
  }

  lemma DayHeaderAsLine(day: string)
    requires OneLine(day)
    ensures var text := DayHeader(day) + "\n";
            Complete(text) && Translate(text) == text && Split(text) == [DayHeader(day)] + [""]
  {
    DayHeaderIsLine(day);
    assert '\r' !in DayHeader(day) + "\n";
    NothingToTranslate(DayHeader(day) + "\n");
    SplitOneLine(DayHeader(day));
    hide DayHeader, Split, Translate;
    CutComplete(DayHeader(day) + "\n");
    assert Cut(DayHeader(day) + "\n") == DayHeader(day);
  }

  lemma DayHeaderIsLine(day: string)
    requires OneLine(day)
    ensures OneLine(DayHeader(day)) && StartsWith(DayHeader(day), "# ") && !StartsWith(DayHeader(day), "## ")
  {
    assert OneLine("# Journal - ");
    assert DayHeader(day)[1] == ' ';
  }

  // ---- reading the file back ----

  datatype Reader = Reader(entries: seq<Parsed>, current: Option<Parsed>)

  function ReadLine(r: Reader, line: string): Reader {
    if StartsWith(line, "## ") then
      Reader(if r.current.Some? then r.entries + [r.current.value] else r.entries,
             Some(Parsed(ParseTitle(line), ParseProject(line), [])))
    else if r.current.Some? then
      r.(current := Some(r.current.value.(content := r.current.value.content + [StripRight(line)])))
    else r
  }

  function ReadLines(r: Reader, lines: seq<string>): Reader {
    if lines == [] then r else ReadLine(ReadLines(r, lines[..|lines| - 1]), lines[|lines| - 1])
  }

  function Finish(r: Reader): seq<Parsed> {
    if r.current.Some? then r.entries + [r.current.value] else r.entries
  }

  /** Reading a file's text. */
  function Collected(text: string): seq<Parsed> {
    Finish(ReadLines(Reader([], None), LinesOf(Translate(text))))
  }

  /** Only an entry's first line looks like an entry header. */
  predicate NoHeading(e: Entry) {
    forall l :: l in Lines(e)[1..] ==> !StartsWith(l, "## ")
  }

  predicate BodySafe(e: Entry) {
    forall l :: l in Body(e) ==> !StartsWith(l, "## ")
  }

  predicate Safe(e: Entry) {
    IsTime(e.time) && HeaderSafe(e) && BodySafe(e)
  }

  function StripAll(lines: seq<string>): seq<string> {
    seq(|lines|, i requires 0 <= i < |lines| => StripRight(lines[i]))
  }

  /** An entry as it is read back; all but the last own the empty line before the next header. */
  function ReadBack(e: Entry, last: bool): Parsed {
    Parsed(e.title, ProjectOf(e), StripAll(Body(e)) + if last then [] else [""])
  }

  /** What the parser makes of an entry's own lines. */
  function Scanned(e: Entry, last: bool): Parsed {
    var lines := Lines(e);
    Parsed(ParseTitle(lines[0]), ParseProject(lines[0]), StripAll(lines[1..]) + if last then [] else [""])
  }

  function AllReadBack(entries: seq<Entry>): seq<Parsed> {
    seq(|entries|, i requires 0 <= i < |entries| => ReadBack(entries[i], i == |entries| - 1))
  }

  lemma {:induction false} ReadConcat(r: Reader, a: seq<string>, b: seq<string>)
    ensures ReadLines(r, a + b) == ReadLines(ReadLines(r, a), b)
  {
    if b == [] {
      assert a + b == a;
    } else {
      var n := |b| - 1;
      assert (a + b)[..|a + b| - 1] == a + b[..n];
      ReadConcat(r, a, b[..n]);
    }
  }

  lemma {:induction false} ReadBody(r: Reader, lines: seq<string>)
    requires r.current.Some? && forall l :: l in lines ==> !StartsWith(l, "## ")
    ensures ReadLines(r, lines) == r.(current := Some(r.current.value.(content := r.current.value.content + StripAll(lines))))
  {
    if lines == [] {
      assert r.current.value.content + [] == r.current.value.content;
    } else {
      var n := |lines| - 1;
      assert lines == lines[..n] + [lines[n]];
      ReadBody(r, lines[..n]);
      assert StripAll(lines) == StripAll(lines[..n]) + [StripRight(lines[n])];
      assert lines[n] in lines;
      assert r.current.value.content + StripAll(lines)
          == (r.current.value.content + StripAll(lines[..n])) + [StripRight(lines[n])];
    }
  }

  /** One more entry: the previous one gets the empty line, and the new one is complete. */
  lemma ReadEntry(r: Reader, e: Entry)
    requires NoHeading(e)
    ensures ReadLines(r, EntryLines(e)) ==
      Reader(if r.current.Some? then r.entries + [r.current.value.(content := r.current.value.content + [""])] else r.entries,
             Some(Scanned(e, true)))
  {
    hide Lines, ParseTitle, ParseProject;
    LinesStart(e);
    var first, rest := Lines(e)[0], Lines(e)[1..];
    assert EntryLines(e) == ["", first] + rest;
    var r1 := ReadLine(r, "");
    var r2 := ReadLine(r1, first);
    assert ["", first][..1] == [""] && [""][..0] == [];
    assert ReadLines(r, []) == r;
    assert ReadLines(r, [""]) == r1;
    assert ReadLines(r, ["", first]) == r2;
    ReadConcat(r, ["", first], rest);
    ReadBody(r2, rest);
    assert [] + StripAll(rest) == StripAll(rest) == StripAll(rest) + [];
  }

  lemma {:induction false} ReadEntries(day: string, entries: seq<Entry>)
    requires OneLine(day) && entries != [] && forall e :: e in entries ==> NoHeading(e)
    ensures var r, n := ReadLines(Reader([], None), File(day, entries)), |entries| - 1;
            && r.current == Some(Scanned(entries[n], true))
            && r.entries == seq(n, i requires 0 <= i < n => Scanned(entries[i], false))
  {
    hide NoHeading, EntryLines, ReadLine, ReadLines, StripAll, Lines, ParseTitle, ParseProject, OneLine;
    var n := |entries| - 1;
    var before, last := entries[..n], entries[n];
    assert last in entries && forall e :: e in before ==> e in entries;
    assert File(day, entries) == File(day, before) + EntryLines(last);
    ReadConcat(Reader([], None), File(day, before), EntryLines(last));
    ReadEntry(ReadLines(Reader([], None), File(day, before)), last);
    if n == 0 {
      DayHeaderIgnored(day);
      assert before == [];
    } else {
      ReadEntries(day, before);
      var r := ReadLines(Reader([], None), File(day, before));
      ScannedMore(before[n - 1]);
      assert seq(n, i requires 0 <= i < n => Scanned(entries[i], false))
          == seq(n - 1, i requires 0 <= i < n - 1 => Scanned(before[i], false)) + [Scanned(entries[n - 1], false)];
    }
  }

  lemma ScannedMore(e: Entry)
    ensures var p := Scanned(e, true); p.(content := p.content + [""]) == Scanned(e, false)
  {
    var c := StripAll(Lines(e)[1..]);
    assert (c + []) + [""] == c + [""];
  }

  lemma DayHeaderIgnored(day: string)
    requires OneLine(day)
    ensures ReadLines(Reader([], None), File(day, [])) == Reader([], None)
  {
    DayHeaderIsLine(day);
    assert File(day, []) == [DayHeader(day)];
    assert File(day, [])[..0] == [];
  }

  lemma ScannedAll(day: string, entries: seq<Entry>)
    requires OneLine(day) && forall e :: e in entries ==> NoHeading(e)
    ensures Collected(FileText(day, entries))
         == seq(|entries|, i requires 0 <= i < |entries| => Scanned(entries[i], i == |entries| - 1))
  {
    hide NoHeading, OneLine, Translate, LinesOf, Split, File, FileText, ReadLines, Scanned;
    FileAsLines(day, entries);
    if entries == [] {
      DayHeaderIgnored(day);
    } else {
      ReadEntries(day, entries);
    }
  }

  // ---- headings ----

  /** How many lines look like an entry header. */
  function Headings(lines: seq<string>): nat {
    if lines == [] then 0 else Headings(lines[..|lines| - 1]) + if StartsWith(lines[|lines| - 1], "## ") then 1 else 0
  }

  lemma {:induction false} ReadCounts(r: Reader, lines: seq<string>)
    ensures |Finish(ReadLines(r, lines))| == |Finish(r)| + Headings(lines)
  {
    hide ParseTitle, ParseProject, StripRight;
    if lines != [] {
      ReadCounts(r, lines[..|lines| - 1]);
    }
  }

  lemma {:induction false} HeadingsConcat(a: seq<string>, b: seq<string>)
    ensures Headings(a + b) == Headings(a) + Headings(b)
  {
    hide StartsWith;
    if b == [] {
      assert a + b == a;
    } else {
      assert (a + b)[..|a + b| - 1] == a + b[..|b| - 1];
      HeadingsConcat(a, b[..|b| - 1]);
    }
  }

  lemma {:induction false} NoHeadings(lines: seq<string>)
    ensures Headings(lines) == 0 <==> forall l :: l in lines ==> !StartsWith(l, "## ")
  {
    hide StartsWith;
    if lines != [] {
      var n := |lines| - 1;
      assert lines == lines[..n] + [lines[n]];
      NoHeadings(lines[..n]);
      assert lines[n] in lines;
    }
  }

  lemma EntryHeadings(e: Entry)
    ensures Headings(EntryLines(e)) == 1 + Headings(Lines(e)[1..])
  {
    LinesStart(e);
    hide Lines;
    var first := Lines(e)[0];
    assert EntryLines(e) == ["", first] + Lines(e)[1..];
    HeadingsConcat(["", first], Lines(e)[1..]);
    assert ["", first][..1] == [""] && [""][..0] == [];
    assert Headings([""]) == 0;
  }

  /** The file has a heading for each entry, and one more for each that another line of an entry looks like. */
  lemma {:induction false} FileHeadings(day: string, entries: seq<Entry>)
    requires OneLine(day)
    ensures Headings(File(day, entries)) >= |entries|
    ensures Headings(File(day, entries)) == |entries| <==> forall e :: e in entries ==> NoHeading(e)
  {
    hide EntryLines, Lines, DayHeader, OneLine;
    if entries == [] {
      assert File(day, []) == [DayHeader(day)] && [DayHeader(day)][..0] == [];
      DayHeaderIsLine(day);
      assert Headings([]) == 0;
    } else {
      var n := |entries| - 1;
      assert entries == entries[..n] + [entries[n]];
      FileHeadings(day, entries[..n]);
      assert File(day, entries) == File(day, entries[..n]) + EntryLines(entries[n]);
      HeadingsConcat(File(day, entries[..n]), EntryLines(entries[n]));
      EntryHeadings(entries[n]);
      NoHeadings(Lines(entries[n])[1..]);
      assert entries[n] in entries;
    }
  }

  /** An entry whose other lines are no headings is read back exactly when its header and its body are safe. */
  lemma ScannedIsReadBackIff(e: Entry, last: bool)
    requires IsTime(e.time) && NoHeading(e)
    ensures Scanned(e, last) == ReadBack(e, last) <==> HeaderSafe(e) && BodySafe(e)
  {
    HeaderRoundTrip(e);
    LinesStart(e);
    if HeaderSafe(e) {
      LinesOfSafe(e);
      assert ([Header(e)] + Body(e))[1..] == Body(e);
    }
  }

  lemma SafeHasNoHeading(e: Entry)
    requires IsTime(e.time) && HeaderSafe(e)
    ensures NoHeading(e) <==> BodySafe(e)
  {
    HeaderRoundTrip(e);
    LinesOfSafe(e);
    assert ([Header(e)] + Body(e))[1..] == Body(e);
  }

  /**
   Entries appended to a day's file come back with their titles, projects and bodies, in order,
   exactly when every header is safe and no body line looks like a header.
   */
  lemma JournalRoundTripIff(day: string, entries: seq<Entry>)
    requires OneLine(day) && forall e :: e in entries ==> IsTime(e.time)
    ensures Collected(FileText(day, entries)) == AllReadBack(entries)
            <==> forall e :: e in entries ==> HeaderSafe(e) && BodySafe(e)
  {
    hide Translate, LinesOf, FileText, ReadLines, File, NoHeading, BodySafe, HeaderSafe, OneLine, IsTime, Scanned, ReadBack;
    var read := Collected(FileText(day, entries));
    if forall e :: e in entries ==> NoHeading(e) {
      ScannedAll(day, entries);
      forall i | 0 <= i < |entries|
        ensures read[i] == AllReadBack(entries)[i] <==> HeaderSafe(entries[i]) && BodySafe(entries[i])
      {
        assert entries[i] in entries;
        ScannedIsReadBackIff(entries[i], i == |entries| - 1);
      }
    } else {
      FileAsLines(day, entries);
      FileHeadings(day, entries);
      ReadCounts(Reader([], None), File(day, entries));
      var e :| e in entries && !NoHeading(e);
      assert !(HeaderSafe(e) && BodySafe(e)) by {
        if HeaderSafe(e) {
          SafeHasNoHeading(e);
        }
      }
    }
  }

  lemma JournalRoundTrip(day: string, entries: seq<Entry>)
    requires OneLine(day) && forall e :: e in entries ==> Safe(e)
    ensures Collected(FileText(day, entries)) == AllReadBack(entries)
  {
    hide IsTime, HeaderSafe, BodySafe, OneLine;
    JournalRoundTripIff(day, entries);
  }

  // ---- the same, with nothing stripped ----

  /** The body as it was given, line by line. */
  function Given(e: Entry): seq<string> {
    if BodyText(e) == "" then [] else Split(Cut(Translate(BodyText(e) + "\n")))
  }

  /** No line ends in blanks, and the body is not all blank. */
  predicate BodyKept(e: Entry) {
    (BodyText(e) != "" ==> Strip(BodyText(e)) != "") && forall l :: l in Given(e) ==> StripRight(l) == l
  }

  function AsGiven(e: Entry, last: bool): Parsed {
    Parsed(e.title, ProjectOf(e), Given(e) + if last then [] else [""])
  }

  function AllAsGiven(entries: seq<Entry>): seq<Parsed> {
    seq(|entries|, i requires 0 <= i < |entries| => AsGiven(entries[i], i == |entries| - 1))
  }

  lemma NothingStripped(lines: seq<string>)
    ensures StripAll(lines) == lines <==> forall l :: l in lines ==> StripRight(l) == l
  {
    hide StripRight;
    if StripAll(lines) == lines {
      forall l | l in lines ensures StripRight(l) == l {
        var i :| 0 <= i < |lines| && lines[i] == l;
        assert StripAll(lines)[i] == StripRight(lines[i]);
      }
    }
    if forall l :: l in lines ==> StripRight(l) == l {
      assert forall i :: 0 <= i < |lines| ==> lines[i] in lines;
    }
  }

  lemma BodyKeptIff(e: Entry, after: seq<string>)
    ensures StripAll(Body(e)) + after == Given(e) + after <==> BodyKept(e)
  {
    var read, given := StripAll(Body(e)), Given(e);
    NothingStripped(given);
    assert BodyText(e) == "" ==> Strip(BodyText(e)) == "";
    hide BodyText, Strip, Split, Translate, StripRight, StripAll;
    if read + after == given + after {
      assert |read| == |given|;
      assert read == (read + after)[..|read|] == (given + after)[..|given|] == given;
    }
  }

  lemma ScannedIsGivenIff(e: Entry, last: bool)
    requires IsTime(e.time) && NoHeading(e)
    ensures Scanned(e, last) == AsGiven(e, last) <==> HeaderSafe(e) && BodySafe(e) && BodyKept(e)
  {
    ScannedIsReadBackIff(e, last);
    BodyKeptIff(e, if last then [] else [""]);
    HeaderRoundTrip(e);
    LinesStart(e);
    if HeaderSafe(e) {
      SafeHasNoHeading(e);
    }
    hide NoHeading, IsTime, HeaderSafe, BodySafe, BodyKept, StripAll, Given, Body, Lines, Header, ParseTitle, ParseProject, ProjectOf;
  }

  /**
   Entries come back line by line as they were given exactly when, besides, no line of a body ends
   in blanks and no body that was given is blank.
   */
  lemma JournalUnchangedIff(day: string, entries: seq<Entry>)
    requires OneLine(day) && forall e :: e in entries ==> IsTime(e.time)
    ensures Collected(FileText(day, entries)) == AllAsGiven(entries)
            <==> forall e :: e in entries ==> HeaderSafe(e) && BodySafe(e) && BodyKept(e)
  {
    hide Translate, LinesOf, FileText, ReadLines, File, NoHeading, BodySafe, BodyKept, HeaderSafe, OneLine, IsTime, Scanned, AsGiven;
    var read := Collected(FileText(day, entries));
    if forall e :: e in entries ==> NoHeading(e) {
      ScannedAll(day, entries);
      forall i | 0 <= i < |entries|
        ensures read[i] == AllAsGiven(entries)[i] <==> HeaderSafe(entries[i]) && BodySafe(entries[i]) && BodyKept(entries[i])
      {
        assert entries[i] in entries;
        ScannedIsGivenIff(entries[i], i == |entries| - 1);
      }
    } else {
      FileAsLines(day, entries);
      FileHeadings(day, entries);
      ReadCounts(Reader([], None), File(day, entries));
      var e :| e in entries && !NoHeading(e);
      assert !(HeaderSafe(e) && BodySafe(e)) by {
        if HeaderSafe(e) {
          SafeHasNoHeading(e);
        }
      }
    }
  }

  // ---- what was given, from the content and the tags ----

  /** The lines of a text that is written with a newline after it. */
  function LinesIn(text: string): seq<string> {
    Split(Cut(Translate(text + "\n")))
  }

  /** The tags in order, with a comma and a blank between each two. */
  ghost predicate Separated(tags: seq<string>, text: string) {
    if tags == [] then text == ""
    else if |tags| == 1 then text == tags[0]
    else exists rest :: Separated(tags[1..], rest) && text == tags[0] + ", " + rest
  }

  /** The content alone; with tags, a line of them, and an empty line and the content unless that is blank. */
  ghost predicate IsBody(content: string, tags: seq<string>, lines: seq<string>) {
    if tags == [] then lines == if content == "" then [] else LinesIn(content)
    else exists joined :: Separated(tags, joined) &&
           lines == LinesIn("**Tags:** " + joined) + if Strip(content) == "" then [] else [""] + LinesIn(content)
  }

  lemma {:induction false} JoinedIsSeparated(tags: seq<string>)
    ensures Separated(tags, JoinTags(tags))
  {
    if |tags| > 1 {
      JoinedIsSeparated(tags[1..]);
    }
  }

  /** Tags joined in this way are one text. */
  lemma {:induction false} SeparatedIsOne(tags: seq<string>, a: string, b: string)
    requires Separated(tags, a) && Separated(tags, b)
    ensures a == b
  {
    if |tags| > 1 {
      var x :| Separated(tags[1..], x) && a == tags[0] + ", " + x;
      var y :| Separated(tags[1..], y) && b == tags[0] + ", " + y;
      SeparatedIsOne(tags[1..], x, y);
    }
  }

  /** When each tag is on one line, so are all of them: there is one tags line. */
  lemma {:induction false} OneTagsLine(tags: seq<string>, joined: string)
    requires Separated(tags, joined) && forall tag :: tag in tags ==> OneLine(tag)
    ensures OneLine(joined) && LinesIn("**Tags:** " + joined) == ["**Tags:** " + joined]
  {
    SeparatedOnLine(tags, joined);
    var l := "**Tags:** " + joined;
    assert OneLine("**Tags:** ") && OneLine(l);
    assert '\r' !in l + "\n";
    hide Split, Translate, OneLine;
    NothingToTranslate(l + "\n");
    assert Cut(l + "\n") == l;
    SplitOneLine(l);
  }

  lemma {:induction false} SeparatedOnLine(tags: seq<string>, joined: string)
    requires Separated(tags, joined) && forall tag :: tag in tags ==> OneLine(tag)
    ensures OneLine(joined)
  {
    if |tags| > 0 {
      assert tags[0] in tags;
    }
    if |tags| > 1 {
      var rest :| Separated(tags[1..], rest) && joined == tags[0] + ", " + rest;
      assert forall tag :: tag in tags[1..] ==> tag in tags;
      SeparatedOnLine(tags[1..], rest);
      assert OneLine(", ");
    }
  }

  lemma TaggedLines(tagsLine: string, content: string)
    ensures LinesIn(tagsLine + "\n\n" + content) == LinesIn(tagsLine) + [""] + LinesIn(content)
  {
    var a, b := Translate(tagsLine + "\n"), Translate(content + "\n");
    ReadAfterNewline(tagsLine, content);
    hide Translate, Split;
    TranslateEnds(tagsLine);
    TranslateEnds(content);
    SplitBoth(a, b);
    var text := a + ("\n" + b);
    CutComplete(text);
    var lines := Split(Cut(a)) + [""] + Split(Cut(b));
    assert (Split(Cut(text)) + [""])[..|Split(Cut(text))|] == Split(Cut(text)) && (lines + [""])[..|lines|] == lines;
  }

  lemma ReadAfterNewline(tagsLine: string, content: string)
    ensures Translate(tagsLine + "\n\n" + content + "\n") == Translate(tagsLine + "\n") + ("\n" + Translate(content + "\n"))
  {
    var rest := content + "\n";
    assert tagsLine + "\n\n" + content + "\n" == (tagsLine + "\n") + ("\n" + rest);
    TranslateConcat(tagsLine + "\n", "\n" + rest);
    assert ("\n" + rest)[1..] == rest;
    assert Translate("\n" + rest) == "\n" + Translate(rest);
  }

  /** What counts as given is the content and the tags, nothing else. */
  lemma GivenIsBody(e: Entry)
    ensures IsBody(e.content, e.tags, Given(e))
  {
    hide Strip, Split, Translate, LinesIn;
    JoinedIsSeparated(e.tags);
    if e.tags == [] {
      assert BodyText(e) == e.content;
      assert Given(e) == if e.content == "" then [] else LinesIn(e.content) by { GivenLines(e); }
    } else {
      var tagsLine := "**Tags:** " + JoinTags(e.tags);
      assert BodyText(e) != "" by { assert |tagsLine| > 0; }
      GivenLines(e);
      if Strip(e.content) == "" {
        assert LinesIn(tagsLine) + [] == LinesIn(tagsLine);
      } else {
        TaggedLines(tagsLine, e.content);
        assert LinesIn(tagsLine) + [""] + LinesIn(e.content) == LinesIn(tagsLine) + ([""] + LinesIn(e.content));
      }
    }
  }

  lemma GivenLines(e: Entry)
    ensures Given(e) == if BodyText(e) == "" then [] else LinesIn(BodyText(e))
  {
  }

  /** An entry that is read as its title, its project, and the lines of its content and tags. */
  ghost predicate ComesBack(e: Entry, last: bool, p: Parsed) {
    && p.title == e.title && p.project == (if e.project == Some("") then None else e.project)
    && exists body :: IsBody(e.content, e.tags, body) && p.content == body + if last then [] else [""]
  }

  /** Every entry of a day that is safe and kept comes back, and nothing else does. */
  lemma KeptComeBack(day: string, entries: seq<Entry>)
    requires OneLine(day) && forall e :: e in entries ==> IsTime(e.time) && HeaderSafe(e) && BodySafe(e) && BodyKept(e)
    ensures var read := Collected(FileText(day, entries));
            && |read| == |entries|
            && forall i :: 0 <= i < |entries| ==> ComesBack(entries[i], i == |entries| - 1, read[i])
  {
    hide IsTime, HeaderSafe, BodySafe, BodyKept, OneLine, Collected, FileText;
    JournalUnchangedIff(day, entries);
    forall i | 0 <= i < |entries| ensures ComesBack(entries[i], i == |entries| - 1, AllAsGiven(entries)[i]) {
      GivenComesBack(entries[i], i == |entries| - 1);
    }
  }

  lemma GivenComesBack(e: Entry, last: bool)
    ensures ComesBack(e, last, AsGiven(e, last))
  {
    GivenIsBody(e);
    hide IsBody, Given;
  }

  const TRAILING := Entry("09:00", "plan", None, "x ", [])

  /** The body `x ` is read as `x`. */
  lemma TrailingBlankIsLost(day: string)
    requires OneLine(day)
    ensures |Collected(FileText(day, [TRAILING]))| == 1 && Collected(FileText(day, [TRAILING]))[0].content == ["x"]
    ensures Collected(FileText(day, [TRAILING])) != AllAsGiven([TRAILING])
  {
    TrailingBody("x ");
    TrailingHeader();
    SafeComesBack(day, TRAILING);
    JournalUnchangedIff(day, [TRAILING]);
    assert TRAILING in [TRAILING];
  }

  lemma TrailingHeader()
    ensures IsTime(TRAILING.time) && HeaderSafe(TRAILING)
  {
    PlanHeader();
  }

  lemma TrailingBody(l: string)
    requires l == "x "
    ensures BodySafe(TRAILING) && !BodyKept(TRAILING) && StripAll(Body(TRAILING)) == ["x"]
  {
    OneLineBody(TRAILING, l);
    assert l in [l] && Given(TRAILING) == Body(TRAILING);
    assert l[..1] == "x" && StripRight("x") == "x" && StripRight(l) == "x";
    assert l[0] == 'x';
  }

  lemma SafeComesBack(day: string, e: Entry)
    requires OneLine(day) && Safe(e)
    ensures Collected(FileText(day, [e])) == [Parsed(e.title, ProjectOf(e), StripAll(Body(e)))]
  {
    hide Safe, StripAll, Body, FileText, OneLine;
    JournalRoundTrip(day, [e]);
    assert StripAll(Body(e)) + [] == StripAll(Body(e));
    assert AllReadBack([e]) == [ReadBack(e, true)];
  }

  /** A body of blanks is not written at all. */
  lemma BlankBodyIsLost(day: string, e: Entry)
    requires OneLine(day) && IsTime(e.time) && HeaderSafe(e) && BodyText(e) != "" && Strip(BodyText(e)) == ""
    ensures Collected(FileText(day, [e])) == [Parsed(e.title, ProjectOf(e), [])] && Given(e) != []
  {
    assert Body(e) == [];
    assert StripAll([]) == [];
    SafeComesBack(day, e);
  }

  /** A body line that looks like a header is read as an entry of its own. */
  lemma HeadingInBodyIsAnEntry(day: string, e: Entry)
    requires OneLine(day) && IsTime(e.time) && HeaderSafe(e) && !BodySafe(e)
    ensures |Collected(FileText(day, [e]))| > 1
  {
    SafeHasNoHeading(e);
    hide BodySafe, HeaderSafe, NoHeading, OneLine, IsTime, Translate, Split, File, FileText, ReadLines;
    assert e in [e];
    FileAsLines(day, [e]);
    FileHeadings(day, [e]);
    ReadCounts(Reader([], None), File(day, [e]));
  }

  const PLAN := Entry("09:00", "plan", None, "## next", [])

  /** One entry is written with the body `## next`; two are read. */
  lemma BodyDoesNotComeBack(day: string)
    requires OneLine(day)
    ensures |Collected(FileText(day, [PLAN]))| > 1
  {
    PlanHeader();
    PlanBody("## next");
    HeadingInBodyIsAnEntry(day, PLAN);
  }

  lemma PlanHeader()
    ensures IsTime(PLAN.time) && HeaderSafe(PLAN)
  {
    hide Header;
    var t := PLAN.title;
    assert t[3] == 'n' && t[0] == 'p';
    assert StripRight(t) == t && StripLeft(t) == t;
  }

  lemma PlanBody(l: string)
    requires l == "## next"
    ensures !BodySafe(PLAN)
  {
    assert l[0] == '#' && l[..3] == "## ";
    OneLineBody(PLAN, l);
    assert l in [l];
  }

  lemma OneLineBody(e: Entry, l: string)
    requires e.tags == [] && e.content == l && OneLine(l) && l != "" && !IsSpace(l[0])
    ensures Body(e) == [l]
  {
    NotBlank(l, 0);
    assert BodyText(e) == l;
    assert '\r' !in l + "\n";
    hide Strip, Split, Translate, BodyText, OneLine;
    NothingToTranslate(l + "\n");
    CutComplete(l + "\n");
    assert Cut(l + "\n") == l;
    SplitOneLine(l);
  }

  /** A title with a line end does not come back either, whatever the rest of the entry. */
  lemma TitleDoesNotComeBack(day: string, e: Entry)
    requires OneLine(day) && IsTime(e.time) && !OneLine(e.title)
    ensures Collected(FileText(day, [e])) != AllReadBack([e])
  {
    JournalRoundTripIff(day, [e]);
    assert e in [e];
  }

  // ---- filtering by project ----

  datatype Filter = Filter(lines: seq<string>, keeping: bool)

  function FilterLine(f: Filter, line: string, project: string): Filter {
    if StartsWith(line, "## ") then
      var keeping := ParseProject(line) == Some(project);
      Filter(if keeping then f.lines + [line] else f.lines, keeping)
    else if StartsWith(line, "# ") then f.(lines := f.lines + [line])
    else if f.keeping then f.(lines := f.lines + [line])
    else f
  }

  function FilterLines(f: Filter, lines: seq<string>, project: string): Filter {
    if lines == [] then f else FilterLine(FilterLines(f, lines[..|lines| - 1], project), lines[|lines| - 1], project)
  }

  /** Filtering a file's text. */
  function FilterByProject(text: string, project: string): string {
    JoinLines(FilterLines(Filter([], false), Split(Translate(text)), project).lines)
  }

  /** The part of the file that shows one entry: its lines and the empty line after them. */
  function Section(e: Entry): seq<string> {
    Lines(e) + [""]
  }

  function SectionsOf(entries: seq<Entry>, project: string): seq<string> {
    if entries == [] then []
    else
      var n := |entries| - 1;
      SectionsOf(entries[..n], project) + if ProjectOf(entries[n]) == Some(project) then Section(entries[n]) else []
  }

  predicate IsHeadingOf(l: string, project: string) {
    StartsWith(l, "## ") && ParseProject(l) == Some(project)
  }

  /** Every heading among the lines is read as the project's. */
  predicate AllOf(lines: seq<string>, project: string) {
    forall l :: l in lines && StartsWith(l, "## ") ==> ParseProject(l) == Some(project)
  }

  /** No line looks like a day header or a heading of the project. */
  predicate NoneOf(lines: seq<string>, project: string) {
    forall l :: l in lines ==> !StartsWith(l, "# ") && !IsHeadingOf(l, project)
  }

  /** The project's own entries only hold headings of the project; the others neither those nor day headers. */
  predicate FilterSafe(e: Entry, project: string) {
    if ProjectOf(e) == Some(project) then AllOf(Lines(e), project) else NoneOf(Lines(e), project)
  }

  /** The lines kept so far, with the empty line that is still to come. */
  function Shown(f: Filter): seq<string> {
    f.lines + if f.keeping then [""] else []
  }

  lemma {:induction false} FilterConcat(f: Filter, a: seq<string>, b: seq<string>, project: string)
    ensures FilterLines(f, a + b, project) == FilterLines(FilterLines(f, a, project), b, project)
  {
    if b == [] {
      assert a + b == a;
    } else {
      var n := |b| - 1;
      assert (a + b)[..|a + b| - 1] == a + b[..n];
      FilterConcat(f, a, b[..n], project);
    }
  }

  lemma FilterOne(f: Filter, l: string, project: string)
    ensures FilterLines(f, [l], project) == FilterLine(f, l, project)
  {
    assert [l][..0] == [];
    assert FilterLines(f, [], project) == f;
  }

  lemma TwoHashes(l: string)
    ensures StartsWith(l, "## ") ==> !StartsWith(l, "# ")
  {
    if StartsWith(l, "## ") {
      assert l[1] == "## "[1];
      assert "# "[1] == ' ';
    }
  }

  /** Lines without a foreign heading, the first one a heading, are all kept. */
  lemma {:induction false} FilterKeepsAll(f: Filter, lines: seq<string>, project: string)
    requires lines != [] && StartsWith(lines[0], "## ") && AllOf(lines, project)
    ensures FilterLines(f, lines, project) == Filter(f.lines + lines, true)
  {
    hide StartsWith, ParseProject;
    var n := |lines| - 1;
    assert lines == lines[..n] + [lines[n]];
    assert lines[n] in lines && forall l :: l in lines[..n] ==> l in lines;
    FilterConcat(f, lines[..n], [lines[n]], project);
    FilterOne(FilterLines(f, lines[..n], project), lines[n], project);
    if n > 0 {
      FilterKeepsAll(f, lines[..n], project);
      assert (f.lines + lines[..n]) + [lines[n]] == f.lines + lines;
    }
  }

  /** How many lines a filter keeps beyond those of a state that keeps none. */
  lemma {:induction false} FilterKeepsSome(f: Filter, lines: seq<string>, project: string)
    requires lines != [] && StartsWith(lines[0], "## ") && !IsHeadingOf(lines[0], project)
    ensures var g := FilterLines(f, lines, project);
            && (NoneOf(lines, project) ==> g == Filter(f.lines, false))
            && (!NoneOf(lines, project) ==> |g.lines| > |f.lines|)
            && (g.keeping ==> !NoneOf(lines, project))
  {
    var n := |lines| - 1;
    TwoHashes(lines[n]);
    hide StartsWith, ParseProject;
    assert lines == lines[..n] + [lines[n]];
    assert forall l :: l in lines <==> l in lines[..n] || l == lines[n];
    FilterConcat(f, lines[..n], [lines[n]], project);
    FilterOne(FilterLines(f, lines[..n], project), lines[n], project);
    if n > 0 {
      FilterKeepsSome(f, lines[..n], project);
    } else {
      assert FilterLines(f, [], project) == f;
    }
  }

  /** Every heading that is kept is one of the project. */
  lemma {:induction false} KeptHeadings(f: Filter, lines: seq<string>, project: string)
    requires AllOf(f.lines, project)
    ensures AllOf(FilterLines(f, lines, project).lines, project)
  {
    hide StartsWith, ParseProject;
    if lines != [] {
      KeptHeadings(f, lines[..|lines| - 1], project);
      TwoHashes(lines[|lines| - 1]);
    }
  }

  /** Nothing is taken back. */
  lemma {:induction false} FilterGrows(f: Filter, lines: seq<string>, project: string)
    ensures |FilterLines(f, lines, project).lines| >= |f.lines|
  {
    hide StartsWith, ParseProject;
    if lines != [] {
      FilterGrows(f, lines[..|lines| - 1], project);
    }
  }

  /** What an entry of another project adds: nothing exactly when it is safe. */
  lemma FilterForeign(f: Filter, lines: seq<string>, project: string)
    requires lines != [] && StartsWith(lines[0], "## ")
    ensures NoneOf(lines, project) ==> FilterLines(f, lines, project) == Filter(f.lines, false)
    ensures !NoneOf(lines, project) ==> |FilterLines(f, lines, project).lines| > |f.lines|
  {
    if IsHeadingOf(lines[0], project) {
      assert lines == [lines[0]] + lines[1..];
      assert lines[0] in lines;
      FilterConcat(f, [lines[0]], lines[1..], project);
      FilterOne(f, lines[0], project);
      FilterGrows(FilterLine(f, lines[0], project), lines[1..], project);
    } else {
      FilterKeepsSome(f, lines, project);
    }
  }

  /** What one entry adds: exactly its section or nothing when it is safe, and a foreign one too much when it is not. */
  lemma FilterStep(f: Filter, e: Entry, project: string)
    ensures var g := FilterLines(f, EntryLines(e), project);
            && (FilterSafe(e, project) ==>
                  Shown(g) == Shown(f) + if ProjectOf(e) == Some(project) then Section(e) else [])
            && (ProjectOf(e) != Some(project) && !FilterSafe(e, project) ==> |Shown(g)| > |Shown(f)|)
  {
    LinesStart(e);
    hide Lines, StartsWith, ParseProject, ProjectOf, FilterLines, FilterLine, AllOf, NoneOf;
    var g0 := FilterLines(f, [""], project);
    FilterBlank(f, project);
    FilterConcat(f, [""], Lines(e), project);
    if ProjectOf(e) != Some(project) {
      FilterForeign(g0, Lines(e), project);
    } else if FilterSafe(e, project) {
      FilterKeepsAll(g0, Lines(e), project);
      assert (Shown(f) + Lines(e)) + [""] == Shown(f) + Section(e);
    }
  }

  lemma FilterBlank(f: Filter, project: string)
    ensures FilterLines(f, [""], project).lines == Shown(f)
  {
    FilterOne(f, "", project);
  }

  ghost predicate OwnSafe(entries: seq<Entry>, project: string) {
    forall e :: e in entries && ProjectOf(e) == Some(project) ==> FilterSafe(e, project)
  }

  ghost predicate AllSafe(entries: seq<Entry>, project: string) {
    forall e :: e in entries ==> FilterSafe(e, project)
  }

  lemma {:induction false} FilterEntries(day: string, entries: seq<Entry>, project: string)
    requires OneLine(day)
    ensures var f, expected := FilterLines(Filter([], false), File(day, entries), project), [DayHeader(day)] + SectionsOf(entries, project);
            && (AllSafe(entries, project) ==> Shown(f) == expected)
            && (OwnSafe(entries, project) && !AllSafe(entries, project) ==> |Shown(f)| > |expected|)
  {
    hide FilterSafe, EntryLines, FilterLines, ProjectOf, DayHeader, Section, Shown, OneLine;
    if entries == [] {
      FilterDayHeader(day, project);
    } else {
      var n := |entries| - 1;
      var before, last := entries[..n], entries[n];
      assert entries == before + [last];
      FilterEntries(day, before, project);
      assert File(day, entries) == File(day, before) + EntryLines(last);
      FilterConcat(Filter([], false), File(day, before), EntryLines(last), project);
      FilterStep(FilterLines(Filter([], false), File(day, before), project), last, project);
      assert OwnSafe(entries, project) <==> OwnSafe(before, project) && (ProjectOf(last) == Some(project) ==> FilterSafe(last, project));
      assert AllSafe(entries, project) <==> AllSafe(before, project) && FilterSafe(last, project);
    }
  }

  lemma FilterDayHeader(day: string, project: string)
    requires OneLine(day)
    ensures FilterLines(Filter([], false), File(day, []), project) == Filter([DayHeader(day)], false)
    ensures Shown(Filter([DayHeader(day)], false)) == [DayHeader(day)]
  {
    DayHeaderIsLine(day);
    assert File(day, []) == [DayHeader(day)];
    FilterOne(Filter([], false), DayHeader(day), project);
  }

  /** A section is in the sections. */
  lemma {:induction false} SectionHolds(entries: seq<Entry>, e: Entry, project: string)
    requires e in entries && ProjectOf(e) == Some(project)
    ensures forall l :: l in Lines(e) ==> l in SectionsOf(entries, project)
  {
    hide Lines, ProjectOf;
    var n := |entries| - 1;
    if entries[n] != e {
      assert entries == entries[..n] + [entries[n]];
      SectionHolds(entries[..n], e, project);
    }
  }

  lemma {:induction false} SectionsAreLines(entries: seq<Entry>, project: string)
    ensures forall l :: l in SectionsOf(entries, project) ==> OneLine(l)
  {
    hide Lines, ProjectOf;
    if entries != [] {
      var n := |entries| - 1;
      SectionsAreLines(entries[..n], project);
      LinesStart(entries[n]);
    }
  }

  /** The filter only passes lines on. */
  lemma {:induction false} FilterPasses(f: Filter, lines: seq<string>, project: string)
    ensures forall l :: l in FilterLines(f, lines, project).lines ==> l in f.lines || l in lines
  {
    hide StartsWith, ParseProject;
    if lines != [] {
      var n := |lines| - 1;
      FilterPasses(f, lines[..n], project);
      assert lines == lines[..n] + [lines[n]];
    }
  }

  /** What the filter leaves of the file, as lines. */
  function Left(day: string, entries: seq<Entry>, project: string): seq<string> {
    FilterLines(Filter([], false), File(day, entries) + [""], project).lines
  }

  lemma LeftIsShown(day: string, entries: seq<Entry>, project: string)
    requires OneLine(day)
    ensures Left(day, entries, project) == Shown(FilterLines(Filter([], false), File(day, entries), project))
    ensures AllOf(Left(day, entries, project), project)
    ensures Left(day, entries, project) != [] && forall l :: l in Left(day, entries, project) ==> OneLine(l)
  {
    hide FilterLines, FilterLine, File, FileText, Shown, AllOf, Translate, Split, OneLine, DayHeader;
    var start, lines := Filter([], false), File(day, entries);
    FilterConcat(start, lines, [""], project);
    FilterBlank(FilterLines(start, lines, project), project);
    LeftStarts(day, entries, project);
    NothingKept(project);
    KeptHeadings(start, lines + [""], project);
    FilterPasses(start, lines + [""], project);
    FileAsLines(day, entries);
    ReadLinesAreLines(FileText(day, entries));
  }

  lemma NothingKept(project: string)
    ensures AllOf([], project)
  {
  }

  lemma LeftStarts(day: string, entries: seq<Entry>, project: string)
    requires OneLine(day)
    ensures Left(day, entries, project) != []
  {
    hide FilterLines, OneLine, DayHeader;
    FilterDayHeader(day, project);
    assert File(day, entries) + [""] == File(day, []) + (AllLines(entries) + [""]);
    FilterConcat(Filter([], false), File(day, []), AllLines(entries) + [""], project);
    FilterGrows(Filter([DayHeader(day)], false), AllLines(entries) + [""], project);
  }

  /**
   The filtered text is the day header and exactly the sections of that project's entries, in order,
   exactly when every entry is safe for that project.
   */
  lemma FilterKeepsProjectIff(day: string, entries: seq<Entry>, project: string)
    requires OneLine(day)
    ensures FilterByProject(FileText(day, entries), project) == JoinLines([DayHeader(day)] + SectionsOf(entries, project))
            <==> forall e :: e in entries ==> FilterSafe(e, project)
  {
    var left, expected := Left(day, entries, project), [DayHeader(day)] + SectionsOf(entries, project);
    FileAsLines(day, entries);
    LeftIsShown(day, entries, project);
    FilterEntries(day, entries, project);
    DayHeaderIsLine(day);
    SectionsAreLines(entries, project);
    hide Translate, Split, File, FileText, FilterLines, SectionsOf, DayHeader, JoinLines, OneLine, FilterSafe, Shown;
    SplitJoined(left);
    SplitJoined(expected);
    assert JoinLines(left) == JoinLines(expected) <==> left == expected;
    if !OwnSafe(entries, project) {
      var e :| e in entries && ProjectOf(e) == Some(project) && !FilterSafe(e, project);
      UnsafeOwn(e, project);
      SectionHolds(entries, e, project);
      assert !AllOf(expected, project);
    }
  }

  lemma UnsafeOwn(e: Entry, project: string)
    requires ProjectOf(e) == Some(project) && !FilterSafe(e, project)
    ensures !AllOf(Lines(e), project)
  {
  }

  const NOTE := Entry("09:00", "plan", None, "# note", [])

  /** The body `# note` of an entry without a project is kept for every project. */
  lemma ForeignNoteIsKept(day: string, project: string)
    requires OneLine(day)
    ensures FilterByProject(FileText(day, [NOTE]), project) != JoinLines([DayHeader(day)] + SectionsOf([NOTE], project))
  {
    PlanHeader();
    HeaderRoundTrip(PLAN);
    assert Header(NOTE) == Header(PLAN);
    NoteBody("# note");
    LinesOfSafe(NOTE);
    hide Lines, Header, OneLine;
    var l := Body(NOTE)[0];
    assert l == Lines(NOTE)[1] && l in Lines(NOTE);
    FilterKeepsProjectIff(day, [NOTE], project);
    assert NOTE in [NOTE];
  }

  lemma NoteBody(l: string)
    requires l == "# note"
    ensures Body(NOTE) == [l] && StartsWith(l, "# ")
  {
    assert l[0] == '#' && l[..2] == "# ";
    OneLineBody(NOTE, l);
  }

  const OTHER_TIME := "## \U{660}\U{669}:\U{660}\U{660} - [p] x"

  const OTHER := Entry("09:00", "plan", None, OTHER_TIME, [])

  /** A time in other digits counts too: this body line is kept for project p. */
  lemma ForeignTimeIsKept(day: string)
    requires OneLine(day)
    ensures FilterByProject(FileText(day, [OTHER]), "p") != JoinLines([DayHeader(day)] + SectionsOf([OTHER], "p"))
  {
    PlanHeader();
    HeaderRoundTrip(PLAN);
    assert Header(OTHER) == Header(PLAN);
    OtherBody(OTHER_TIME);
    LinesOfSafe(OTHER);
    hide Lines, Header, OneLine, IsHeadingOf;
    var l := Body(OTHER)[0];
    assert l == Lines(OTHER)[1] && l in Lines(OTHER);
    FilterKeepsProjectIff(day, [OTHER], "p");
    assert OTHER in [OTHER];
  }

  lemma OtherBody(l: string)
    requires l == OTHER_TIME
    ensures Body(OTHER) == [l] && IsHeadingOf(l, "p")
  {
    OtherIsHeading(l);
    OtherIsLine(l);
    hide IsHeadingOf, Body, OneLine, IsSpace;
    OneLineBody(OTHER, l);
  }

  lemma OtherIsLine(l: string)
    requires l == OTHER_TIME
    ensures OneLine(l) && l != "" && !IsSpace(l[0])
  {
    assert l[0] == '#';
  }

  lemma OtherIsHeading(l: string)
    requires l == OTHER_TIME
    ensures IsHeadingOf(l, "p")
  {
    assert l[..3] == "## " && l[8..11] == " - " && l[11..] == "[p] x";
    OtherIsTime(l[3..8]);
    hide IsTime;
    assert AfterTime(l) == Some("[p] x");
    assert "[p] x" == "[" + "p" + "] " + "x";
    TagOf("p", "x");
  }

  lemma OtherIsTime(t: string)
    requires t == "\U{660}\U{669}:\U{660}\U{660}"
    ensures IsTime(t)
  {
    assert t[0] == '\U{660}' && t[1] == '\U{669}' && t[2] == ':';
    assert IsDigit('\U{660}') && IsDigit('\U{669}');
    hide IsDigit;
  }

  // ---- the code ----

  lemma EntryTextIs(e: Entry, header: string, body: string)
    requires header == Header(e) && body == BodyText(e)
    ensures EntryText(e) == if Strip(body) == "" then "\n" + header + "\n" else "\n" + header + "\n" + body + "\n"
  {
    hide Header, BodyText, Strip;
    if Strip(body) == "" {
      assert header + "\n" + "" == header + "\n";
      assert "\n" + (header + "\n") == "\n" + header + "\n";
    } else {
      assert "\n" + (header + "\n" + (body + "\n")) == "\n" + header + "\n" + body + "\n";
    }
  }

  /** The tags and the content with a newline after them, nothing if there are no tags and the content is blank. */
  ghost predicate IsAppendedBody(content: string, tags: seq<string>, text: string) {
    if tags == [] then text == if Strip(content) == "" then "" else content + "\n"
    else exists joined :: Separated(tags, joined) &&
           text == "**Tags:** " + joined + (if Strip(content) == "" then "" else "\n\n" + content) + "\n"
  }

  /** The text before, an empty line, the header with time, project and title, and the body. */
  ghost predicate IsAppended(before: string, e: Entry, after: string) {
    exists body :: IsAppendedBody(e.content, e.tags, body) &&
      after == before + "\n"
               + ("## " + e.time + " - " + (if e.project.Some? && e.project.value != "" then "[" + e.project.value + "] " else "") + e.title)
               + "\n" + body
  }

  lemma AppendedText(before: string, e: Entry)
    ensures IsAppended(before, e, before + EntryText(e))
  {
    var body := if Strip(BodyText(e)) == "" then "" else BodyText(e) + "\n";
    AppendedBody(e);
    var tag := if e.project.Some? && e.project.value != "" then "[" + e.project.value + "] " else "";
    HeaderParts(e, tag);
    hide IsAppendedBody, Strip, BodyText, Header;
    InOneText(before, Header(e), body);
  }

  lemma InOneText(before: string, header: string, body: string)
    ensures before + ("\n" + ((header + "\n") + body)) == before + "\n" + header + "\n" + body
  {
  }

  lemma HeaderParts(e: Entry, tag: string)
    requires tag == if e.project.Some? && e.project.value != "" then "[" + e.project.value + "] " else ""
    ensures Header(e) == "## " + e.time + " - " + tag + e.title
  {
    if tag == "" {
      assert "## " + e.time + " - " + tag == "## " + e.time + " - ";
    } else {
      assert "## " + e.time + " - " + tag == "## " + e.time + " - [" + e.project.value + "] ";
    }
  }

  lemma AppendedBody(e: Entry)
    ensures IsAppendedBody(e.content, e.tags, if Strip(BodyText(e)) == "" then "" else BodyText(e) + "\n")
  {
    if e.tags != [] {
      JoinedIsSeparated(e.tags);
      var joined := JoinTags(e.tags);
      var i, j := StrippedIs(BodyText(e));
      assert BodyText(e)[0] == '*';
      assert Strip(BodyText(e)) != "";
      hide Strip, Separated, JoinTags;
      if Strip(e.content) == "" {
        assert "**Tags:** " + joined + "" == "**Tags:** " + joined;
      } else {
        assert "**Tags:** " + joined + ("\n\n" + e.content) == ("**Tags:** " + joined) + "\n\n" + e.content;
      }
    }
  }

  /** The text of one day's journal file; None until the first entry. */
  class JournalFile {
    var file: Option<string>

    constructor ()
      ensures file == None
    {
      file := None;
    }

    method AddEntry(day: string, e: Entry)
      modifies this
      ensures file == Some((if old(file).Some? then old(file).value else DayHeader(day) + "\n") + EntryText(e))
      ensures file.Some? && IsAppended(if old(file).Some? then old(file).value else "# Journal - " + day + "\n", e, file.value)
    {
      AppendedText(if file.Some? then file.value else DayHeader(day) + "\n", e);
      assert DayHeader(day) == "# Journal - " + day;
      hide Strip, EntryText, DayHeader, IsAppended;
      if file == None {
        file := Some(DayHeader(day) + "\n");
      }
      var header := if e.project.Some? && e.project.value != ""
                    then "## " + e.time + " - [" + e.project.value + "] " + e.title
                    else "## " + e.time + " - " + e.title;
      var body := e.content;
      if e.tags != [] {
        var tagsLine := "**Tags:** " + JoinTags(e.tags);
        body := if Strip(body) != "" then tagsLine + "\n\n" + body else tagsLine;
      }
      var text := "\n" + header + "\n";
      if Strip(body) != "" {
        text := text + body + "\n";
      }
      EntryTextIs(e, header, body);
      file := Some(file.value + text);
    }

    /** Parsing the file into structured entries. */
    method CollectEntries() returns (entries: seq<Parsed>)
      ensures entries == if file == None then [] else Collected(file.value)
    {
      entries := [];
      if file == None {
        return;
      }
      var lines := LinesOf(Translate(file.value));
      var current: Option<Parsed> := None;
      var i := 0;
      while i < |lines|
        invariant 0 <= i <= |lines|
        invariant Reader(entries, current) == ReadLines(Reader([], None), lines[..i])
      {
        var line := lines[i];
        assert lines[..i + 1][..i] == lines[..i];
        if StartsWith(line, "## ") {
          if current.Some? {
            entries := entries + [current.value];
          }
          current := Some(Parsed(ParseTitle(line), ParseProject(line), []));
        } else if current.Some? {
          current := Some(current.value.(content := current.value.content + [StripRight(line)]));
        }
        i := i + 1;
      }
      assert lines[..i] == lines;
      if current.Some? {
        entries := entries + [current.value];
      }
    }

    method FilteredBy(project: string) returns (text: string)
      requires file.Some?
      ensures text == FilterByProject(file.value, project)
    {
      var all := Split(Translate(file.value));
      var lines: seq<string> := [];
      var keeping := false;
      var i := 0;
      while i < |all|
        invariant 0 <= i <= |all|
        invariant Filter(lines, keeping) == FilterLines(Filter([], false), all[..i], project)
      {
        var line := all[i];
        assert all[..i + 1][..i] == all[..i];
        i := i + 1;
        if StartsWith(line, "## ") {
          keeping := ParseProject(line) == Some(project);
        } else if StartsWith(line, "# ") {
          lines := lines + [line];
          continue;
        }
        if keeping {
          lines := lines + [line];
        }
      }
      assert all[..i] == all;
      text := JoinLines(lines);
    }
  }

  /** Writing a day's entries one by one and reading them back. */
  method WriteThenRead(journal: JournalFile, day: string, entries: seq<Entry>) returns (read: seq<Parsed>)
    requires OneLine(day) && journal.file == None && forall e :: e in entries ==> IsTime(e.time)
    modifies journal
    ensures read == AllReadBack(entries) <==> forall e :: e in entries ==> HeaderSafe(e) && BodySafe(e)
    ensures read == AllAsGiven(entries) <==> forall e :: e in entries ==> HeaderSafe(e) && BodySafe(e) && BodyKept(e)
    ensures (forall e :: e in entries ==> HeaderSafe(e) && BodySafe(e) && BodyKept(e)) ==>
      |read| == |entries| && forall i :: 0 <= i < |entries| ==> ComesBack(entries[i], i == |entries| - 1, read[i])
  {
    hide IsTime, HeaderSafe, BodySafe, BodyKept, EntryText, ComesBack;
    var i := 0;
    while i < |entries|
      invariant 0 <= i <= |entries|
      invariant journal.file == if i == 0 then None else Some(FileText(day, entries[..i]))
    {
      assert entries[..i + 1][..i] == entries[..i];
      journal.AddEntry(day, entries[i]);
      i := i + 1;
    }
    assert entries[..i] == entries;
    read := journal.CollectEntries();
    JournalRoundTripIff(day, entries);
    JournalUnchangedIff(day, entries);
    if forall e :: e in entries ==> HeaderSafe(e) && BodySafe(e) && BodyKept(e) {
      KeptComeBack(day, entries);
    }
    if entries == [] {
      JournalRoundTrip(day, entries);
    }
  }
}
