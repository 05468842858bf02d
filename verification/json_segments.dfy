/**
 What a JSON file with comments consists of, as a grammar: code, string
 literals, line comments and block comments. Removing the comments is leaving
 out these segments.
 */
module JsonSegments {
  import opened JsonComments

  /** One character of a literal, or a backslash with the character it escapes. */
  datatype LiteralChar = Plain(c: char) | Escaped(c: char)

  /** How a literal ends; without its quote it reaches to the end of the file. */
  datatype LiteralEnd = Quote | EndOfFile | BackslashAtEnd

  datatype Segment =
    | CodeChar(c: char)
    | Literal(chars: seq<LiteralChar>, end: LiteralEnd)
    | LineComment(text: string)
    | BlockComment(text: string, closed: bool)

  // --------------------------------------------------------------- the grammar

  function PrintChar(c: LiteralChar): string {
    match c
    case Plain(c) => [c]
    case Escaped(c) => ['\\', c]
  }

  function PrintChars(chars: seq<LiteralChar>): string {
    if chars == [] then "" else PrintChar(chars[0]) + PrintChars(chars[1..])
  }

  function PrintEnd(end: LiteralEnd): string {
    match end
    case Quote => "\""
    case EndOfFile => ""
    case BackslashAtEnd => "\\"
  }

  function PrintSegment(segment: Segment): string {
    match segment
    case CodeChar(c) => [c]
    case Literal(chars, end) => "\"" + (PrintChars(chars) + PrintEnd(end))
    case LineComment(text) => "//" + text
    case BlockComment(text, closed) => "/*" + (text + if closed then "*/" else "")
  }

  function Print(segments: seq<Segment>): string {
    if segments == [] then "" else PrintSegment(segments[0]) + Print(segments[1..])
  }

  predicate ClosesAt(text: string, k: nat) {
    k + 1 < |text| && text[k] == '*' && text[k + 1] == '/'
  }

  ghost predicate NeverCloses(text: string) {
    forall k: nat :: !ClosesAt(text, k)
  }

  /** The segment is what it says when `rest` follows it. */
  ghost predicate Fits(segment: Segment, rest: string) {
    match segment
    case CodeChar(c) => c != '"' && (c == '/' && rest != "" ==> rest[0] != '/' && rest[0] != '*')
    case Literal(chars, end) =>
      && (forall i | 0 <= i < |chars| && chars[i].Plain? :: chars[i].c != '"' && chars[i].c != '\\')
      && (end != Quote ==> rest == "")
    case LineComment(text) => '\n' !in text && (rest != "" ==> rest[0] == '\n')
    case BlockComment(text, closed) => NeverCloses(text) && (!closed ==> rest == "")
  }

  ghost predicate WellFormed(segments: seq<Segment>) {
    segments == [] || (Fits(segments[0], Print(segments[1..])) && WellFormed(segments[1..]))
  }

  predicate IsComment(segment: Segment) {
    segment.LineComment? || segment.BlockComment?
  }

  function WithoutCommentSegments(segments: seq<Segment>): seq<Segment> {
    if segments == [] then []
    else (if IsComment(segments[0]) then [] else [segments[0]]) + WithoutCommentSegments(segments[1..])
  }

  // ------------------------------------------------- stripping each of the segments

  lemma {:induction false} StripOne(mode: Mode, c: char, tail: string, s: string)
    requires s == [c] + tail && |Next(mode, s).parts| == 1
    ensures Stripped(mode, s) == (if Next(mode, s).parts[0] == Comment then "" else [c]) + Stripped(Next(mode, s).mode, tail)
  {
    assert s[1..] == tail;
  }

  lemma {:induction false} StripTwo(mode: Mode, a: char, b: char, tail: string, s: string)
    requires s == [a, b] + tail && |Next(mode, s).parts| == 2
    ensures Stripped(mode, s) == (if Next(mode, s).parts[0] == Comment then "" else [a, b]) + Stripped(Next(mode, s).mode, tail)
  {
    assert s[2..] == tail;
  }

  lemma {:induction false} CodeIsKept(c: char, rest: string)
    requires Fits(CodeChar(c), rest)
    ensures Stripped(InCode, [c] + rest) == [c] + Stripped(InCode, rest)
  {
    StripOne(InCode, c, rest, [c] + rest);
  }

  lemma {:induction false} CharIsKept(c: LiteralChar, tail: string)
    requires c.Plain? ==> c.c != '"' && c.c != '\\'
    ensures Stripped(InString, PrintChar(c) + tail) == PrintChar(c) + Stripped(InString, tail)
  {
    match c
    case Plain(x) => StripOne(InString, x, tail, [x] + tail);
    case Escaped(x) => StripTwo(InString, '\\', x, tail, ['\\', x] + tail);
  }

  lemma Regrouped(a: string, b: string, c: string, all: string)
    requires all == a + (b + c)
    ensures all == a + b + c
  {
  }

  lemma {:induction false} CharsAreKept(chars: seq<LiteralChar>, tail: string, s: string)
    requires forall i | 0 <= i < |chars| && chars[i].Plain? :: chars[i].c != '"' && chars[i].c != '\\'
    requires s == PrintChars(chars) + tail
    ensures Stripped(InString, s) == PrintChars(chars) + Stripped(InString, tail)
  {
    if chars == [] {
      assert s == tail;
    } else {
      var more := PrintChars(chars[1..]) + tail;
      CharsAreKept(chars[1..], tail, more);
      CharIsKept(chars[0], more);
      Regrouped(PrintChar(chars[0]), PrintChars(chars[1..]), tail, PrintChar(chars[0]) + more);
      Regrouped(PrintChar(chars[0]), PrintChars(chars[1..]), Stripped(InString, tail), Stripped(InString, s));
    }
  }

  lemma {:induction false} EndIsKept(end: LiteralEnd, rest: string)
    requires end != Quote ==> rest == ""
    ensures Stripped(InString, PrintEnd(end) + rest) == PrintEnd(end) + Stripped(InCode, rest)
  {
    match end
    case Quote => StripOne(InString, '"', rest, "\"" + rest);
    case EndOfFile =>
    case BackslashAtEnd => StripOne(InString, '\\', "", "\\" + rest);
  }

  lemma {:induction false} LiteralIsKept(chars: seq<LiteralChar>, end: LiteralEnd, rest: string, s: string)
    requires Fits(Literal(chars, end), rest) && s == PrintSegment(Literal(chars, end)) + rest
    ensures Stripped(InCode, s) == PrintSegment(Literal(chars, end)) + Stripped(InCode, rest)
  {
    var text, tail := PrintChars(chars), PrintEnd(end) + rest;
    EndIsKept(end, rest);
    CharsAreKept(chars, tail, text + tail);
    LiteralText(text, PrintEnd(end), rest, s);
    StripOne(InCode, '"', text + tail, s);
    LiteralText(text, PrintEnd(end), Stripped(InCode, rest), "\"" + (text + PrintEnd(end)) + Stripped(InCode, rest));
  }

  lemma LiteralText(text: string, end: string, rest: string, s: string)
    requires s == "\"" + (text + end) + rest
    ensures s == ['"'] + (text + (end + rest))
  {
  }

  lemma {:induction false} LineIsDropped(text: string, rest: string, s: string)
    requires Fits(LineComment(text), rest) && s == text + rest
    ensures Stripped(InLine, s) == Stripped(InCode, rest)
  {
    if text != "" {
      assert text[0] in text;
      assert s == [text[0]] + (text[1..] + rest);
      LineIsDropped(text[1..], rest, text[1..] + rest);
      StripOne(InLine, text[0], text[1..] + rest, s);
    } else {
      assert s == rest;
      if s != "" {
        assert s == [s[0]] + s[1..];
        StripOne(InLine, s[0], s[1..], s);
        StripOne(InCode, s[0], s[1..], s);
      }
    }
  }

  lemma {:induction false} BlockIsDropped(text: string, rest: string, s: string)
    requires NeverCloses(text) && s == text + ("*/" + rest)
    ensures Stripped(InBlock, s) == Stripped(InCode, rest)
  {
    if text == "" {
      assert s == ['*', '/'] + rest;
      StripTwo(InBlock, '*', '/', rest, s);
    } else {
      var tail := text[1..] + ("*/" + rest);
      assert s == [text[0]] + tail;
      NeverClosesLater(text);
      assert !ClosesAt(text, 0);
      BlockIsDropped(text[1..], rest, tail);
      StripOne(InBlock, text[0], tail, s);
    }
  }

  lemma NeverClosesLater(text: string)
    requires NeverCloses(text) && text != ""
    ensures NeverCloses(text[1..])
  {
    forall k: nat ensures !ClosesAt(text[1..], k) {
      assert !ClosesAt(text, k + 1);
    }
  }

  lemma {:induction false} OpenBlockIsDropped(text: string)
    requires NeverCloses(text)
    ensures Stripped(InBlock, text) == ""
  {
    if text != "" {
      NeverClosesLater(text);
      assert !ClosesAt(text, 0);
      OpenBlockIsDropped(text[1..]);
      StripOne(InBlock, text[0], text[1..], text);
    }
  }

  lemma {:induction false} LineCommentIsDropped(text: string, rest: string, s: string)
    requires Fits(LineComment(text), rest) && s == PrintSegment(LineComment(text)) + rest
    ensures Stripped(InCode, s) == Stripped(InCode, rest)
  {
    assert s == ['/', '/'] + (text + rest);
    LineIsDropped(text, rest, text + rest);
    StripTwo(InCode, '/', '/', text + rest, s);
  }

  lemma {:induction false} BlockCommentIsDropped(text: string, closed: bool, rest: string, s: string)
    requires Fits(BlockComment(text, closed), rest) && s == PrintSegment(BlockComment(text, closed)) + rest
    ensures Stripped(InCode, s) == Stripped(InCode, rest)
  {
    if closed {
      assert s == ['/', '*'] + (text + ("*/" + rest));
      BlockIsDropped(text, rest, text + ("*/" + rest));
      StripTwo(InCode, '/', '*', text + ("*/" + rest), s);
    } else {
      assert s == ['/', '*'] + text;
      OpenBlockIsDropped(text);
      StripTwo(InCode, '/', '*', text, s);
    }
  }

  /** Stripping leaves out the comments, and prints everything else as it was. */
  lemma {:induction false} StrippedIsPrinted(segments: seq<Segment>)
    requires WellFormed(segments)
    ensures Stripped(InCode, Print(segments)) == Print(WithoutCommentSegments(segments))
  {
    if segments != [] {
      var first, rest, kept := segments[0], Print(segments[1..]), WithoutCommentSegments(segments[1..]);
      StrippedIsPrinted(segments[1..]);
      PrintFirst(first, kept);
      assert [] + kept == kept;
      match first
      case CodeChar(c) => CodeIsKept(c, rest);
      case Literal(chars, end) => LiteralIsKept(chars, end, rest, Print(segments));
      case LineComment(text) => LineCommentIsDropped(text, rest, Print(segments));
      case BlockComment(text, closed) => BlockCommentIsDropped(text, closed, rest, Print(segments));
    }
  }

  lemma PrintFirst(first: Segment, rest: seq<Segment>)
    ensures Print([first] + rest) == PrintSegment(first) + Print(rest)
  {
    assert ([first] + rest)[1..] == rest;
  }

  // ------------------------------------------------- every file has such segments

  lemma {:induction false} TakeLiteral(s: string) returns (chars: seq<LiteralChar>, end: LiteralEnd, rest: string)
    ensures s == (PrintChars(chars) + PrintEnd(end)) + rest && Fits(Literal(chars, end), rest)
    decreases |s|
  {
    if s == "" {
      chars, end, rest := [], EndOfFile, "";
    } else if s[0] == '"' {
      chars, end, rest := [], Quote, s[1..];
      assert s == "\"" + s[1..];
    } else if s == "\\" {
      chars, end, rest := [], BackslashAtEnd, "";
    } else if s[0] == '\\' {
      chars, end, rest := TakeLiteral(s[2..]);
      assert s == ['\\', s[1]] + s[2..];
      chars := OneMoreChar(Escaped(s[1]), chars, end, rest);
    } else {
      chars, end, rest := TakeLiteral(s[1..]);
      assert s == [s[0]] + s[1..];
      chars := OneMoreChar(Plain(s[0]), chars, end, rest);
    }
  }

  lemma OneMoreChar(c: LiteralChar, more: seq<LiteralChar>, end: LiteralEnd, rest: string) returns (chars: seq<LiteralChar>)
    requires Fits(Literal(more, end), rest) && (c.Plain? ==> c.c != '"' && c.c != '\\')
    ensures PrintChars(chars) + PrintEnd(end) + rest == PrintChar(c) + (PrintChars(more) + PrintEnd(end) + rest)
    ensures Fits(Literal(chars, end), rest)
  {
    chars := [c] + more;
    assert chars[1..] == more;
  }

  lemma {:induction false} TakeLine(s: string) returns (text: string, rest: string)
    ensures s == text + rest && Fits(LineComment(text), rest)
  {
    if s == "" || s[0] == '\n' {
      text, rest := "", s;
    } else {
      text, rest := TakeLine(s[1..]);
      text := [s[0]] + text;
    }
  }

  lemma {:induction false} TakeBlock(s: string) returns (text: string, closed: bool, rest: string)
    ensures s == text + (if closed then "*/" else "") + rest && Fits(BlockComment(text, closed), rest)
    ensures !closed ==> text == s
  {
    if s == "" {
      text, closed, rest := "", false, "";
    } else if |s| >= 2 && s[0] == '*' && s[1] == '/' {
      text, closed, rest := "", true, s[2..];
      assert s == "*/" + s[2..];
    } else {
      text, closed, rest := TakeBlock(s[1..]);
      StillOpen(s, text, closed, rest);
      text := [s[0]] + text;
      assert s == [s[0]] + s[1..];
    }
  }

  lemma StillOpen(s: string, text: string, closed: bool, rest: string)
    requires s != "" && !ClosesAt(s, 0) && NeverCloses(text)
    requires s[1..] == text + (if closed then "*/" else "") + rest
    ensures NeverCloses([s[0]] + text)
  {
    forall k: nat ensures !ClosesAt([s[0]] + text, k) {
      if k == 0 && text != "" {
        assert text[0] == s[1..][0];
      } else if k > 0 {
        assert !ClosesAt(text, k - 1);
      }
    }
  }

  /** Every text is the printing of well-formed segments. */
  lemma {:induction false} EveryTextHasSegments(s: string) returns (segments: seq<Segment>)
    ensures WellFormed(segments) && Print(segments) == s
    decreases |s|
  {
    if s == "" {
      segments := [];
    } else {
      var first, rest := TakeSegment(s);
      var more := EveryTextHasSegments(rest);
      segments := [first] + more;
      assert segments[1..] == more;
    }
  }

  lemma TakeSegment(s: string) returns (first: Segment, rest: string)
    requires s != ""
    ensures s == PrintSegment(first) + rest && Fits(first, rest) && |rest| < |s|
  {
    if s[0] == '"' {
      var chars, end;
      chars, end, rest := TakeLiteral(s[1..]);
      first := Literal(chars, end);
      SegmentInFront(s, "\"", PrintChars(chars) + PrintEnd(end), rest);
    } else if |s| >= 2 && s[0] == '/' && s[1] == '/' {
      var text;
      text, rest := TakeLine(s[2..]);
      first := LineComment(text);
      SegmentInFront(s, "//", text, rest);
    } else if |s| >= 2 && s[0] == '/' && s[1] == '*' {
      var text, closed;
      text, closed, rest := TakeBlock(s[2..]);
      first := BlockComment(text, closed);
      SegmentInFront(s, "/*", text + if closed then "*/" else "", rest);
    } else {
      first, rest := CodeChar(s[0]), s[1..];
      assert s == [s[0]] + rest;
    }
  }

  lemma SegmentInFront(s: string, front: string, text: string, rest: string)
    requires |front| <= |s| && s[..|front|] == front && s[|front|..] == text + rest
    ensures s == front + text + rest && |rest| + |front| <= |s|
  {
    assert s == front + (text + rest);
  }
}
