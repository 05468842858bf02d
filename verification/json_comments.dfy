/** Removing the comments of a JSON file with comments, strings left alone. */
module JsonComments {
  import opened Text

  datatype Mode = InCode | InString | InLine | InBlock

  /** What a character of the file is part of. */
  datatype Part = Code | Opening | Inside | Closing | Comment

  datatype Marked = Marked(c: char, part: Part)

  /** What the next one or two characters are, and the mode behind them. */
  datatype Move = Move(parts: seq<Part>, mode: Mode)

  function Read(mode: Mode, first: char, second: Option<char>): (r: Move)
    ensures 1 <= |r.parts| <= if second.Some? then 2 else 1
    ensures r.parts[0] == Comment <==> r.parts[|r.parts| - 1] == Comment
  {
    match mode
    case InLine => if first == '\n' then Move([Code], InCode) else Move([Comment], InLine)
    case InBlock => if first == '*' && second == Some('/') then Move([Comment, Comment], InCode) else Move([Comment], InBlock)
    case InString =>
      if first == '\\' then Move(if second.Some? then [Inside, Inside] else [Inside], InString)
      else if first == '"' then Move([Closing], InCode)
      else Move([Inside], InString)
    case InCode =>
      if first == '"' then Move([Opening], InString)
      else if first == '/' && second == Some('/') then Move([Comment, Comment], InLine)
      else if first == '/' && second == Some('*') then Move([Comment, Comment], InBlock)
      else Move([Code], InCode)
  }

  function Second(s: string): Option<char> {
    if |s| > 1 then Some(s[1]) else None
  }

  function Next(mode: Mode, s: string): (r: Move)
    requires s != ""
    ensures 1 <= |r.parts| <= 2 && |r.parts| <= |s|
    ensures r.parts[0] == Comment <==> r.parts[|r.parts| - 1] == Comment
  {
    Read(mode, s[0], Second(s))
  }

  /** The first characters with their marks. */
  function Marks(s: string, parts: seq<Part>): seq<Marked>
    requires 1 <= |parts| <= 2 && |parts| <= |s|
  {
    if |parts| == 1 then [Marked(s[0], parts[0])] else [Marked(s[0], parts[0]), Marked(s[1], parts[1])]
  }

  /** The file with every character marked. */
  function Lex(mode: Mode, s: string): seq<Marked>
    decreases |s|
  {
    if s == "" then []
    else
      var move := Next(mode, s);
      Marks(s, move.parts) + Lex(move.mode, s[|move.parts|..])
  }

  function WithoutComments(marks: seq<Marked>): seq<Marked> {
    if marks == [] then []
    else (if marks[0].part == Comment then [] else [marks[0]]) + WithoutComments(marks[1..])
  }

  function TextOf(marks: seq<Marked>): string {
    if marks == [] then "" else [marks[0].c] + TextOf(marks[1..])
  }

  /** What a move hands out. */
  function Kept(s: string, parts: seq<Part>): string
    requires 1 <= |parts| <= 2 && |parts| <= |s|
  {
    if parts[0] == Comment then "" else if |parts| == 1 then [s[0]] else [s[0], s[1]]
  }

  /** The file without the characters of its comments. */
  function Stripped(mode: Mode, s: string): string
    decreases |s|
  {
    if s == "" then ""
    else
      var move := Next(mode, s);
      Kept(s, move.parts) + Stripped(move.mode, s[|move.parts|..])
  }

  function ModeOf(inString: bool, inLine: bool, inBlock: bool): Mode {
    if inLine then InLine else if inBlock then InBlock else if inString then InString else InCode
  }

  function MoveAt(mode: Mode, s: string, i: nat): (r: Move)
    requires i < |s|
    ensures 1 <= |r.parts| <= 2 && i + |r.parts| <= |s|
  {
    Read(mode, s[i], if i + 1 < |s| then Some(s[i + 1]) else None)
  }

  /** The result from an index on; the index may have run past the end. */
  function StrippedAt(mode: Mode, s: string, i: nat): string
    decreases |s| - i
  {
    if i >= |s| then ""
    else
      var move := MoveAt(mode, s, i);
      (if move.parts[0] == Comment then "" else if |move.parts| == 1 then [s[i]] else [s[i], s[i + 1]])
      + StrippedAt(move.mode, s, i + |move.parts|)
  }

  lemma {:induction false} StrippedAtIsStripped(mode: Mode, s: string, i: nat)
    requires i <= |s|
    ensures StrippedAt(mode, s, i) == Stripped(mode, s[i..])
    decreases |s| - i
  {
    if i < |s| {
      var move := MoveAt(mode, s, i);
      StrippedAtIsStripped(move.mode, s, i + |move.parts|);
      assert s[i..][|move.parts|..] == s[i + |move.parts|..];
    }
  }

  /** Everything handed out so far, and the rest still to come, are the whole result. */
  ghost predicate Gives(input: string, out: string, mode: Mode, i: nat) {
    StrippedAt(InCode, input, 0) == out + StrippedAt(mode, input, i)
  }

  lemma Reassociated(out: string, more: string, left: string, out': string)
    requires out' == out + more
    ensures out + (more + left) == out' + left
  {
  }

  lemma GivesMore(input: string, out: string, mode: Mode, i: nat, out': string, mode': Mode, i': nat)
    requires i < |input| && Gives(input, out, mode, i)
    requires var move := MoveAt(mode, input, i);
             && mode' == move.mode && (i' == i + |move.parts| || (i' > |input| == i + |move.parts|))
             && out' == if move.parts[0] == Comment then out
                        else if |move.parts| == 1 then out + [input[i]] else out + [input[i]] + [input[i + 1]]
    ensures Gives(input, out', mode', i')
  {
    var move := MoveAt(mode, input, i);
    var more := if move.parts[0] == Comment then "" else if |move.parts| == 1 then [input[i]] else [input[i], input[i + 1]];
    var left := StrippedAt(mode', input, i');
    assert StrippedAt(mode, input, i) == more + left;
    Reassociated(out, more, left, out');
  }

  method StripJsonComments(input: string) returns (out: string)
    ensures out == Stripped(InCode, input)
  {
    out := "";
    var inString, inLine, inBlock := false, false, false;
    var i := 0;
    assert "" + StrippedAt(InCode, input, 0) == StrippedAt(InCode, input, 0);
    while i < |input|
      invariant i <= |input| + 1
      invariant Gives(input, out, ModeOf(inString, inLine, inBlock), i)
      invariant (inLine ==> !inBlock && !inString) && (inBlock ==> !inString)
      decreases |input| + 1 - i
    {
      ghost var was, mode, at := out, ModeOf(inString, inLine, inBlock), i;
      var ch := input[i];
      var next := if i + 1 < |input| then Some(input[i + 1]) else None;
      if inLine {
        if ch == '\n' {
          inLine := false;
          out := out + [ch];
        }
      } else if inBlock {
        if ch == '*' && next == Some('/') {
          inBlock := false;
          i := i + 1;
        }
      } else if inString {
        out := out + [ch];
        if ch == '\\' {
          if next.Some? {
            out := out + [next.value];
          }
          i := i + 1;
        } else if ch == '"' {
          inString := false;
        }
      } else if ch == '"' {
        inString := true;
        out := out + [ch];
      } else if ch == '/' && next == Some('/') {
        inLine := true;
        i := i + 1;
      } else if ch == '/' && next == Some('*') {
        inBlock := true;
        i := i + 1;
      } else {
        out := out + [ch];
      }
      i := i + 1;
      GivesMore(input, was, mode, at, out, ModeOf(inString, inLine, inBlock), i);
    }
    assert out + "" == out && input[0..] == input;
    StrippedAtIsStripped(InCode, input, 0);
  }

  // ------------------------------------------------------- reading the result again

  /** Between comments the result is read as code. */
  function OutMode(mode: Mode): Mode {
    if mode == InString then InString else InCode
  }

  lemma FirstIsKept(s: string)
    requires s != "" && s[0] != '/'
    ensures Stripped(InCode, s) != "" && Stripped(InCode, s)[0] == s[0]
  {
  }

  lemma KeptHead(s: string, parts: seq<Part>, tail: string, t: string)
    requires 1 <= |parts| <= 2 && |parts| <= |s| && parts[0] != Comment && t == Kept(s, parts) + tail
    ensures t != "" && t[0] == s[0]
    ensures Second(t) == if |parts| == 2 then Some(s[1]) else if tail != "" then Some(tail[0]) else None
  {
  }

  lemma ReadAgain(mode: Mode, first: char, second: Option<char>, second': Option<char>)
    requires Read(mode, first, second).parts[0] != Comment
    requires |Read(mode, first, second).parts| == 2 ==> second' == second
    requires second.None? ==> second'.None?
    requires mode == InCode && first == '/' && second.Some? ==> second' == second
    ensures Read(OutMode(mode), first, second') == Read(mode, first, second)
  {
  }

  /** The move that kept characters is made again when the result is read. */
  lemma SameMove(mode: Mode, s: string, tail: string, t: string)
    requires s != "" && Next(mode, s).parts[0] != Comment
    requires tail == Stripped(Next(mode, s).mode, s[|Next(mode, s).parts|..])
    requires t == Kept(s, Next(mode, s).parts) + tail
    ensures t != "" && Next(OutMode(mode), t) == Next(mode, s)
  {
    var move := Next(mode, s);
    KeptHead(s, move.parts, tail, t);
    if mode == InCode && s[0] == '/' && |s| > 1 {
      FirstIsKept(s[1..]);
    }
    ReadAgain(mode, s[0], Second(s), Second(t));
  }

  lemma WithoutAppend(s: string, parts: seq<Part>, rest: seq<Marked>)
    requires 1 <= |parts| <= 2 && |parts| <= |s|
    requires parts[0] == Comment <==> parts[|parts| - 1] == Comment
    ensures WithoutComments(Marks(s, parts) + rest) == (if parts[0] == Comment then [] else Marks(s, parts)) + WithoutComments(rest)
  {
    var marks := Marks(s, parts) + rest;
    if |parts| == 1 {
      assert marks[1..] == rest;
    } else {
      assert marks[1..] == [marks[1]] + rest && marks[1..][1..] == rest;
    }
  }

  /** Reading the result gives every kept character the part it had, and no comments. */
  lemma {:induction false} Relex(mode: Mode, s: string)
    ensures Lex(OutMode(mode), Stripped(mode, s)) == WithoutComments(Lex(mode, s))
    decreases |s|
  {
    if s != "" {
      var move := Next(mode, s);
      var rest := s[|move.parts|..];
      Relex(move.mode, rest);
      WithoutAppend(s, move.parts, Lex(move.mode, rest));
      if move.parts[0] == Comment {
        assert Stripped(mode, s) == Stripped(move.mode, rest);
      } else {
        SameMove(mode, s, Stripped(move.mode, rest), Stripped(mode, s));
        KeptLex(mode, s, Stripped(move.mode, rest), Stripped(mode, s));
      }
    }
  }

  lemma KeptLex(mode: Mode, s: string, tail: string, t: string)
    requires s != "" && Next(mode, s).parts[0] != Comment
    requires tail == Stripped(Next(mode, s).mode, s[|Next(mode, s).parts|..]) && t == Stripped(mode, s)
    requires t != "" && Next(OutMode(mode), t) == Next(mode, s)
    ensures var move := Next(mode, s);
            Lex(OutMode(mode), t) == Marks(s, move.parts) + Lex(OutMode(move.mode), tail)
  {
    var move := Next(mode, s);
    KeptTail(s, move.parts, tail, t);
  }

  lemma KeptTail(s: string, parts: seq<Part>, tail: string, t: string)
    requires 1 <= |parts| <= 2 && |parts| <= |s| && parts[0] != Comment && t == Kept(s, parts) + tail
    ensures |parts| <= |t| && t[|parts|..] == tail && Marks(t, parts) == Marks(s, parts)
  {
  }

  // ------------------------------------------------------- what follows for the result

  lemma {:induction false} StrippedIsText(mode: Mode, s: string)
    ensures Stripped(mode, s) == TextOf(WithoutComments(Lex(mode, s)))
    decreases |s|
  {
    if s != "" {
      var move := Next(mode, s);
      var rest := s[|move.parts|..];
      StrippedIsText(move.mode, rest);
      WithoutAppend(s, move.parts, Lex(move.mode, rest));
      if move.parts[0] == Comment {
        assert WithoutComments(Lex(mode, s)) == WithoutComments(Lex(move.mode, rest));
      } else {
        TextOfMarks(s, move.parts, WithoutComments(Lex(move.mode, rest)));
      }
    }
  }

  lemma TextOfMarks(s: string, parts: seq<Part>, rest: seq<Marked>)
    requires 1 <= |parts| <= 2 && |parts| <= |s| && parts[0] != Comment
    ensures TextOf(Marks(s, parts) + rest) == Kept(s, parts) + TextOf(rest)
  {
    var marks := Marks(s, parts) + rest;
    if |parts| == 1 {
      assert marks[1..] == rest;
    } else {
      assert marks[1..] == [marks[1]] + rest && marks[1..][1..] == rest;
    }
  }

  lemma {:induction false} TextOfLex(mode: Mode, s: string)
    ensures TextOf(Lex(mode, s)) == s
    decreases |s|
  {
    if s != "" {
      var move := Next(mode, s);
      var rest := s[|move.parts|..];
      TextOfLex(move.mode, rest);
      var marks := Marks(s, move.parts) + Lex(move.mode, rest);
      if |move.parts| == 1 {
        assert marks[1..] == Lex(move.mode, rest) && s == [s[0]] + rest;
      } else {
        assert marks[1..] == [marks[1]] + Lex(move.mode, rest) && marks[1..][1..] == Lex(move.mode, rest);
        assert s == [s[0]] + ([s[1]] + rest);
      }
    }
  }

  /** Stripping twice changes nothing more, and the result has no comments left. */
  lemma StrippingIsIdempotent(s: string)
    ensures Stripped(InCode, Stripped(InCode, s)) == Stripped(InCode, s)
    ensures forall m | m in Lex(InCode, Stripped(InCode, s)) :: m.part != Comment
  {
    var once := Stripped(InCode, s);
    Relex(InCode, s);
    Relex(InCode, once);
    NoneLeft(Lex(InCode, s));
    KeepsAll(Lex(InCode, once));
    StrippedIsText(InCode, once);
    TextOfLex(InCode, once);
  }

  lemma {:induction false} NoneLeft(marks: seq<Marked>)
    ensures forall m | m in WithoutComments(marks) :: m.part != Comment
  {
    if marks != [] {
      NoneLeft(marks[1..]);
    }
  }

  lemma {:induction false} KeepsAll(marks: seq<Marked>)
    requires forall m | m in marks :: m.part != Comment
    ensures WithoutComments(marks) == marks
  {
    if marks != [] {
      assert marks[0] in marks && forall m | m in marks[1..] :: m in marks;
      KeepsAll(marks[1..]);
      assert marks == [marks[0]] + marks[1..];
    }
  }

  /** The string literals, quotes included, one after the other. */
  function Literals(marks: seq<Marked>): seq<Marked> {
    if marks == [] then []
    else (if marks[0].part == Code || marks[0].part == Comment then [] else [marks[0]]) + Literals(marks[1..])
  }

  lemma {:induction false} LiteralsAreKept(marks: seq<Marked>)
    ensures Literals(WithoutComments(marks)) == Literals(marks)
  {
    if marks != [] {
      LiteralsAreKept(marks[1..]);
      var kept := WithoutComments(marks);
      if marks[0].part == Comment {
        assert kept == WithoutComments(marks[1..]);
      } else {
        assert kept[1..] == WithoutComments(marks[1..]);
      }
    }
  }

  /** The string literals of the result are those of the input, terminated or not. */
  lemma LiteralsUnchanged(s: string)
    ensures Literals(Lex(InCode, Stripped(InCode, s))) == Literals(Lex(InCode, s))
  {
    Relex(InCode, s);
    LiteralsAreKept(Lex(InCode, s));
  }

  /** Code that would start a comment. */
  predicate OpensComment(marks: seq<Marked>, k: nat) {
    k + 1 < |marks| && marks[k] == Marked('/', Code) && (marks[k + 1].c == '/' || marks[k + 1].c == '*')
  }

  /** Code never has two slashes, or a slash and a star, in a row; so the result has them in strings only. */
  lemma {:induction false} NoOpeners(mode: Mode, s: string, k: nat)
    ensures !OpensComment(Lex(mode, s), k)
    decreases |s|
  {
    if s != "" {
      var move := Next(mode, s);
      var n, rest := |move.parts|, s[|move.parts|..];
      var marks := Lex(mode, s);
      if k >= n {
        NoOpeners(move.mode, rest, k - n);
        assert marks[n..] == Lex(move.mode, rest);
      } else if marks[k] == Marked('/', Code) && rest != "" {
        FirstMark(move.mode, rest);
        assert marks[k + 1].c == s[k + 1];
      }
    }
  }

  lemma FirstMark(mode: Mode, s: string)
    requires s != ""
    ensures Lex(mode, s) != [] && Lex(mode, s)[0].c == s[0]
  {
  }

  lemma {:induction false} LexIsPointwise(mode: Mode, s: string, k: nat)
    requires k < |s|
    ensures |Lex(mode, s)| == |s| && Lex(mode, s)[k].c == s[k]
    ensures Lex(mode, s)[k].part == Opening || Lex(mode, s)[k].part == Closing ==> s[k] == '"'
    decreases |s|
  {
    var move := Next(mode, s);
    var n, rest := |move.parts|, s[|move.parts|..];
    if rest != "" {
      LexIsPointwise(move.mode, rest, if k >= n then k - n else 0);
      assert k >= n ==> rest[k - n] == s[k];
    }
  }

  /** Wherever the result has two slashes, or a slash and a star, in a row, they are inside a string literal. */
  lemma NoCommentOutsideStrings(s: string, k: nat)
    ensures var out := Stripped(InCode, s);
            k + 1 < |out| && out[k] == '/' && (out[k + 1] == '/' || out[k + 1] == '*') ==>
              |Lex(InCode, out)| == |out| && Lex(InCode, out)[k].part == Inside
  {
    var out := Stripped(InCode, s);
    if k + 1 < |out| && out[k] == '/' && (out[k + 1] == '/' || out[k + 1] == '*') {
      var marks := Lex(InCode, out);
      LexIsPointwise(InCode, out, k);
      LexIsPointwise(InCode, out, k + 1);
      StrippingIsIdempotent(s);
      NoOpeners(InCode, out, k);
      assert marks[k] in marks;
    }
  }
}
