/**
  The content-line reader of `icalparser.c`: a generator hands out chunks of at most 79
  octets, and `icalparser_get_line` glues them back into unfolded content lines through an
  80-octet look-ahead buffer.  The specification is a plain split, join and strip.
 */
module LineReader {
  import opened CText

  // ------------------------------------------------------------------------------------
  // Specification: split at line feeds, join folded lines, strip the line end

  /** The length of the first physical line, its line feed included */
  function FirstLineEnd(s: string): (n: nat)
    requires s != []
    ensures 0 < n <= |s|
    ensures LF !in s[..n - 1]
    ensures n < |s| ==> s[n - 1] == LF
  {
    if s[0] == LF || |s| == 1 then 1 else 1 + FirstLineEnd(s[1..])
  }

  function PhysicalLines(s: string): (lines: seq<string>)
    ensures forall i :: 0 <= i < |lines| ==> lines[i] != []
  {
    if s == [] then [] else [s[..FirstLineEnd(s)]] + PhysicalLines(s[FirstLineEnd(s)..])
  }

  /** The line `next` continues `raw`: it starts with a blank and `raw` is a finished line */
  predicate Folds(raw: string, next: string) {
    |raw| >= 2 && raw[|raw| - 1] == LF && next != [] && IsBlank(next[0])
  }

  /** Removes a final LF or CRLF */
  function DropEol(raw: string): string
    requires |raw| >= 2
  {
    var body := raw[..|raw| - 1];
    if body[|body| - 1] == CR then body[..|body| - 1] else body
  }

  function Join(raw: string, lines: seq<string>): (string, seq<string>)
    decreases |lines|
  {
    if lines != [] && Folds(raw, lines[0]) then
      Join(DropEol(raw) + lines[0][1..], lines[1..])
    else
      (raw, lines)
  }

  /** Removes trailing white space, but never the first character */
  function StripKeepFirst(s: string): (r: string)
    ensures |r| <= |s| && r == s[..|r|]
  {
    if |s| > 1 && IsSpace(s[|s| - 1]) then StripKeepFirst(s[..|s| - 1]) else s
  }

  function Finish(raw: string): string {
    StripKeepFirst(if |raw| >= 2 && raw[|raw| - 1] == LF then DropEol(raw) else raw)
  }

  function LogicalLines(lines: seq<string>): seq<string>
    decreases |lines|
  {
    if lines == [] then []
    else
      var (raw, rest) := Join(lines[0], lines[1..]);
      JoinShrinks(lines[0], lines[1..]);
      (if rest == [] && raw == [] then [] else [Finish(raw)]) + LogicalLines(rest)
  }

  lemma JoinShrinks(raw: string, lines: seq<string>)
    ensures |Join(raw, lines).1| <= |lines|
    decreases |lines|
  {
  }

  lemma JoinStep(raw: string, lines: seq<string>, raw': string)
    requires lines != [] && Folds(raw, lines[0]) && raw' == DropEol(raw) + lines[0][1..]
    ensures Join(raw, lines) == Join(raw', lines[1..])
  {
  }

  lemma JoinStop(raw: string, lines: seq<string>)
    requires lines != [] ==> !Folds(raw, lines[0])
    ensures Join(raw, lines) == (raw, lines)
  {
  }

  /**
    What `icalparser_get_line` returns when `pending` is the text still to come, the first
    chunk of which is already in the look-ahead buffer: the first unfolded line, unless the
    text ends in a line that unfolds to nothing.
   */
  function NextLine(pending: string): (Option<string>, string) {
    var (raw, rest) := RawLine([], pending);
    (if raw == [] && rest == [] then None else Some(Finish(raw)), rest)
  }

  // ------------------------------------------------------------------------------------
  // The same specification on a stream that arrives in pieces

  predicate Open(raw: string) {
    raw == [] || raw[|raw| - 1] != LF
  }

  /** The unfolded line that starts with `raw` and goes on in `s`, and what is left of `s` */
  function RawLine(raw: string, s: string): (r: (string, string))
    ensures |r.1| <= |s|
    ensures s != [] && Open(raw) ==> |r.1| < |s|
    decreases |s|
  {
    if s == [] then (raw, s)
    else if Open(raw) then RawLine(raw + s[..FirstLineEnd(s)], s[FirstLineEnd(s)..])
    else if Folds(raw, s) then RawLine(DropEol(raw) + s[1..FirstLineEnd(s)], s[FirstLineEnd(s)..])
    else (raw, s)
  }

  lemma FirstLineEndUnique(s: string, n: nat)
    requires 0 < n <= |s|
    requires LF !in s[..n - 1]
    requires n < |s| ==> s[n - 1] == LF
    ensures FirstLineEnd(s) == n
  {
  }

  lemma FirstLineEndAfter(s: string, k: nat)
    requires s != [] && k < FirstLineEnd(s)
    ensures FirstLineEnd(s[k..]) == FirstLineEnd(s) - k
  {
    var n := FirstLineEnd(s);
    assert s[k..][..n - k - 1] == s[..n - 1][k..];
    FirstLineEndUnique(s[k..], n - k);
  }

  lemma RawLineOpen(raw: string, s: string)
    requires s != [] && Open(raw)
    ensures RawLine(raw, s) == RawLine(raw + s[..FirstLineEnd(s)], s[FirstLineEnd(s)..])
  {
  }

  lemma RawLineFolds(raw: string, s: string)
    requires Folds(raw, s)
    ensures RawLine(raw, s) == RawLine(DropEol(raw) + s[1..FirstLineEnd(s)], s[FirstLineEnd(s)..])
  {
  }

  lemma CutTwice(raw: string, s: string, i: nat, k: nat, n: nat)
    requires i <= k <= n <= |s|
    ensures raw + s[i..k] + s[k..][..n - k] == raw + s[i..n]
    ensures s[k..][n - k..] == s[n..]
  {
  }

  /** A piece of an unfinished physical line may be moved over early */
  lemma AbsorbPiece(raw: string, s: string, k: nat)
    requires s != [] && Open(raw) && 0 < k <= FirstLineEnd(s)
    ensures RawLine(raw, s) == RawLine(raw + s[..k], s[k..])
  {
    hide RawLine;
    var n := FirstLineEnd(s);
    RawLineOpen(raw, s);
    if k < n {
      FirstLineEndAfter(s, k);
      assert s[k - 1] != LF by { assert s[k - 1] in s[..n - 1]; }
      RawLineOpen(raw + s[..k], s[k..]);
      CutTwice(raw, s, 0, k, n);
    }
  }

  /** The first piece of a continuation line loses its leading blank */
  lemma AbsorbContinuation(raw: string, s: string, k: nat)
    requires Folds(raw, s) && 0 < k <= FirstLineEnd(s)
    requires k == 1 ==> |s| == 1
    ensures RawLine(raw, s) == RawLine(DropEol(raw) + s[1..k], s[k..])
  {
    hide RawLine, DropEol;
    var n := FirstLineEnd(s);
    RawLineFolds(raw, s);
    if k < n {
      FirstLineEndAfter(s, k);
      assert s[k - 1] != LF by { assert s[k - 1] in s[..n - 1]; }
      RawLineOpen(DropEol(raw) + s[1..k], s[k..]);
      CutTwice(DropEol(raw), s, 1, k, n);
    }
  }

  function Flatten(lines: seq<string>): string {
    if lines == [] then [] else lines[0] + Flatten(lines[1..])
  }

  lemma FlattenPhysical(s: string)
    ensures Flatten(PhysicalLines(s)) == s
  {
    if s != [] {
      var n := FirstLineEnd(s);
      FlattenPhysical(s[n..]);
      assert s == s[..n] + s[n..];
    }
  }

  /** Joining physical lines and reading the stream agree */
  lemma JoinIsRawLine(raw: string, s: string)
    requires raw != [] && (!Open(raw) || s == [])
    ensures Join(raw, PhysicalLines(s)).0 == RawLine(raw, s).0
    ensures Join(raw, PhysicalLines(s)).1 == PhysicalLines(RawLine(raw, s).1)
    decreases |s|
  {
    if s != [] {
      var n := FirstLineEnd(s);
      if Folds(raw, s) {
        var raw' := DropEol(raw) + s[1..n];
        assert PhysicalLines(s)[0] == s[..n] && PhysicalLines(s)[1..] == PhysicalLines(s[n..]);
        assert s[..n][1..] == s[1..n];
        if n == |s| {
          assert s[n..] == [];
          assert PhysicalLines(s[n..]) == [];
        } else {
          assert n != 1 by { assert s[0] != LF; }
          assert raw'[|raw'| - 1] == s[n - 1] == LF;
          JoinIsRawLine(raw', s[n..]);
        }
      }
    }
  }

  // ------------------------------------------------------------------------------------
  // The generator

  /** Skips the UTF-8 marker at the beginning of the input */
  function SkipBom(input: string): string {
    if |input| >= 3 && input[0] == 0xEF as char && input[1] == 0xBB as char && input[2] == 0xBF as char
    then input[3..] else input
  }

  /** One chunk: up to the next LF, else up to the next CR (turned into LF), else all; at most 79 octets */
  function Chunk(rest: string): (c: string)
    requires rest != []
    ensures 0 < |c| <= |rest| && |c| < TMP_BUF_SIZE
    ensures LF !in c[..|c| - 1]
    ensures |c| < |rest| && |c| < TMP_BUF_SIZE - 1 ==> c[|c| - 1] == LF
    ensures IsCString(rest) ==> IsCString(c)
  {
    var lf := StrChr(rest, LF);
    var cr := StrChr(rest, CR);
    var end := if lf < |rest| then lf + 1 else if cr < |rest| then cr + 1 else |rest|;
    var size := if end > TMP_BUF_SIZE - 1 then TMP_BUF_SIZE - 1 else end;
    assert rest[..size][..size - 1] == rest[..lf][..size - 1];
    if lf == |rest| && cr < |rest| then rest[..size - 1] + [LF] else rest[..size]
  }

  /** The text that the generator delivers in all */
  function Delivered(rest: string): (s: string)
    ensures s == [] <==> rest == []
    ensures IsCString(rest) ==> IsCString(s)
  {
    if rest == [] then [] else Chunk(rest) + Delivered(rest[|Chunk(rest)|..])
  }

  /** No CR follows the last LF, as in every text whose lines end in LF or CRLF */
  predicate LfTerminated(s: string) {
    CR in s ==> exists i :: 0 <= i < |s| && s[i] == LF && CR !in s[i..]
  }

  lemma LfTerminatedAfter(s: string, k: nat)
    requires k <= |s| && CR in s[k..]
    requires k > 0 ==> LF !in s[..k - 1]
    ensures LfTerminated(s) <==> LfTerminated(s[k..])
  {
    var j :| k <= j < |s| && s[j] == CR;
    if LfTerminated(s) {
      var i :| 0 <= i < |s| && s[i] == LF && CR !in s[i..];
      assert i >= k;
      assert s[k..][i - k] == LF && s[k..][i - k..] == s[i..];
    }
    if LfTerminated(s[k..]) {
      var i :| 0 <= i < |s[k..]| && s[k..][i] == LF && CR !in s[k..][i..];
      assert s[i + k] == LF && s[i + k..] == s[k..][i..];
    }
  }

  lemma ChunkCopies(s: string)
    requires s != []
    ensures LF in s || CR !in s ==> Chunk(s) == s[..|Chunk(s)|]
    ensures LF !in s && CR in s ==> Chunk(s)[|Chunk(s)| - 1] == LF
  {
  }

  /** The generator delivers its input unchanged exactly when no CR follows the last LF */
  lemma {:induction false} DeliveredIsInput(s: string)
    ensures Delivered(s) == s <==> LfTerminated(s)
    decreases |s|
  {
    hide Chunk, LfTerminated;
    if s == [] {
      assert LfTerminated(s) by { NoCr(s); }
    } else {
      ChunkCopies(s);
      var c := Chunk(s);
      var rest := s[|c|..];
      assert s == s[..|c|] + rest;
      if LF !in s && CR in s {
        assert c[|c| - 1] != s[|c| - 1];
        assert Delivered(s)[|c| - 1] == c[|c| - 1];
        NoLf(s);
      } else {
        DeliveredIsInput(rest);
        assert Delivered(s) == s <==> Delivered(rest) == rest by { SamePrefix(c, Delivered(rest), rest); }
        assert c[..|c| - 1] == s[..|c| - 1];
        if CR in rest {
          LfTerminatedAfter(s, |c|);
        } else {
          OneLineLeft(s, c);
        }
      }
    }
  }

  /** A text that ends in CR alone is delivered with an LF instead */
  lemma CarriageReturnExample()
    ensures Delivered("a\r") == "a\n"
  {
    var s := "a\r";
    assert StrChr(s, LF) == 2 && StrChr(s, CR) == 1;
    assert s[..1] + [LF] == "a\n";
    assert Chunk(s) == "a\n";
    assert s[2..] == [];
    assert Delivered([]) == [];
  }

  lemma SamePrefix(c: string, a: string, b: string)
    ensures c + a == c + b <==> a == b
  {
    if c + a == c + b {
      assert a == (c + a)[|c|..] == (c + b)[|c|..] == b;
    }
  }

  lemma NoCr(s: string)
    requires CR !in s
    ensures LfTerminated(s)
  {
  }

  lemma NoLf(s: string)
    requires LF !in s && CR in s
    ensures !LfTerminated(s)
  {
  }

  lemma OneLineLeft(s: string, c: string)
    requires c != [] && |c| <= |s| && LF !in s[..|c| - 1] && CR !in s[|c|..] && (LF in s || CR !in s)
    ensures LfTerminated(s) && LfTerminated(s[|c|..])
  {
    if CR in s {
      var i :| 0 <= i < |s| && s[i] == LF;
      assert i >= |c| - 1;
      assert CR !in s[i..];
    }
  }

  class Reader {
    // the data of the string line generator
    const input: string
    var started: bool
    var pos: nat
    // the fields of the parser that the reader uses
    const temp: array<char>
    var bufferFull: bool
    var continuationLine: bool

    ghost predicate Allocated()
      reads this
    {
      temp.Length == TMP_BUF_SIZE && pos <= |input| && IsCString(input)
    }

    /** The octets that the generator has not handed out yet */
    ghost function Rest(): string
      requires Allocated()
      reads this
    {
      if started then input[pos..] else SkipBom(input)
    }

    /** The chunk in the look-ahead buffer, empty when the buffer is clear */
    ghost function Held(): string
      reads temp
    {
      CStr(temp[..])
    }

    /** All the text still to come */
    ghost function Pending(): string
      requires Allocated()
      reads this, temp
    {
      Held() + Delivered(Rest())
    }

    /** What a chunk in the buffer looks like */
    ghost predicate HoldsChunk()
      requires Allocated()
      reads this, temp
    {
      var c := Held();
      && 0 < |c| < TMP_BUF_SIZE
      && LF !in c[..|c| - 1]
      && (|c| < TMP_BUF_SIZE - 1 ==> temp[TMP_BUF_SIZE - 1] != NUL)
      && (|c| < TMP_BUF_SIZE - 1 && Rest() != [] ==> c[|c| - 1] == LF)
    }

    ghost predicate Valid()
      reads this, temp
    {
      && Allocated()
      && !continuationLine
      && (Held() != [] ==> HoldsChunk())
      && (Held() == [] && Rest() != [] ==> !bufferFull)
    }

    constructor (input: string)
      requires IsCString(input)
      ensures Valid() && fresh(temp) && this.input == input
      ensures Held() == [] && Pending() == Delivered(SkipBom(input))
    {
      this.input := input;
      started, pos := false, 0;
      temp := new char[TMP_BUF_SIZE](_ => NUL);
      bufferFull, continuationLine := false, false;
    }

    /** The copying tail of the generator; the octet that replaces a CR is the last one copied */
    method CopyOut(rest: string, size: nat, replaceCr: bool)
      requires temp.Length == TMP_BUF_SIZE
      requires 0 < size <= |rest| && size < TMP_BUF_SIZE && IsCString(rest)
      modifies temp
      ensures Held() == if replaceCr then rest[..size - 1] + [LF] else rest[..size]
      ensures forall k :: size < k < TMP_BUF_SIZE ==> temp[k] == old(temp[k])
    {
      forall k | 0 <= k < size {
        temp[k] := rest[k];
      }
      if replaceCr {
        temp[size - 1] := LF;
      }
      temp[size] := NUL;
      var c := if replaceCr then rest[..size - 1] + [LF] else rest[..size];
      assert temp[..][..size] == c;
      CStrUntil(temp[..], size);
    }

    /** How far the next chunk goes, and whether its last octet stands for a CR */
    static method ChunkSize(rest: string) returns (size: nat, replaceCr: bool)
      requires rest != []
      ensures 0 < size <= |rest| && size < TMP_BUF_SIZE
      ensures Chunk(rest) == if replaceCr then rest[..size - 1] + [LF] else rest[..size]
    {
      replaceCr := false;
      var n := StrChr(rest, LF);
      if n == |rest| {
        n := StrChr(rest, CR);
        if n == |rest| {
          size := |rest|;
        } else {
          size := n + 1;
          replaceCr := true;
        }
      } else {
        size := n + 1;
      }
      if size > TMP_BUF_SIZE - 1 {
        size := TMP_BUF_SIZE - 1;
      }
    }

    /** The first call of the generator positions it after the UTF-8 marker */
    method Start()
      requires Allocated()
      modifies this`started, this`pos
      ensures Allocated() && started && input[pos..] == old(Rest())
    {
      if !started {
        started := true;
        pos := |input| - |SkipBom(input)|;
      }
    }

    /** `icalparser_string_line_generator` */
    method Generate() returns (got: bool)
      requires Allocated()
      modifies this`started, this`pos, temp
      ensures Allocated()
      ensures got == (old(Rest()) != [])
      ensures !got ==> temp[..] == old(temp[..]) && Rest() == []
      ensures got ==> Held() == Chunk(old(Rest())) && Rest() == old(Rest())[|Held()|..]
      ensures got ==> forall k :: |Held()| < k < TMP_BUF_SIZE ==> temp[k] == old(temp[k])
    {
      hide Chunk, SkipBom, CStr;
      Start();
      got := pos < |input|;
      if got {
        var size, replaceCr := ChunkSize(input[pos..]);
        CopyOut(input[pos..], size, replaceCr);
        DropDrop(input, pos, size);
        pos := pos + size;
      }
    }

    /** The part of the loop of `icalparser_get_line` that moves the look-ahead buffer to the output */
    method TakeHeld(line: string) returns (line': string)
      requires Allocated() && Held() != [] && HoldsChunk()
      requires continuationLine ==> |line| >= 2 && Held()[0] != LF
      modifies this`bufferFull, this`continuationLine, temp
      ensures Allocated() && Held() == [] && !continuationLine
      ensures line' == Take(line, old(Held()), old(continuationLine))
      ensures IsCString(line) ==> IsCString(line')
      ensures Rest() != [] ==> bufferFull == Open(line') && line' != ""
    {
      hide CStr, Chunk;
      ghost var c := Held();
      CStrFirst(temp[..]);
      assert temp[..][1..] == temp[1..];
      bufferFull := temp[TMP_BUF_SIZE - 1] == NUL && temp[TMP_BUF_SIZE - 2] != LF
                    && temp[TMP_BUF_SIZE - 2] != NUL;
      if continuationLine {
        continuationLine := false;
        line' := line[..|line| - 1];
        if line'[|line'| - 1] == CR {
          line' := line'[..|line'| - 1];
        }
        assert CStr(temp[1..]) == c[1..];
        line' := line' + CStr(temp[1..]);
      } else {
        line' := line + CStr(temp[..]);
      }
      if Rest() != [] {
        TakeKeepsOpen(line, c, old(continuationLine));
      }
      temp[0] := NUL;
      CStrFirst(temp[..]);
    }

    /** Marks the end of the look-ahead buffer and asks the generator for more */
    method Refill() returns (got: bool)
      requires Allocated() && Held() == []
      modifies this`started, this`pos, temp
      ensures Allocated()
      ensures Pending() == old(Pending())
      ensures got == (Pending() != [])
      ensures if got then HoldsChunk() else Held() == [] && Rest() == []
    {
      ghost var rest := Rest();
      temp[TMP_BUF_SIZE - 1] := 1 as char;
      got := Generate();
    }

    /** What holds between two passes through the loop of `icalparser_get_line` */
    ghost predicate MidLine(line: string)
      requires Allocated()
      reads this, temp
    {
      && IsCString(line)
      && HoldsChunk()
      && (if continuationLine then Folds(line, Held()) else Open(line))
    }

    /** The line is complete: what comes next does not belong to it */
    ghost predicate EndOfLine(line: string)
      requires Allocated()
      reads this, temp
    {
      && Valid()
      && (Pending() != [] ==> Held() != [] && !Open(line) && !Folds(line, Pending()))
    }

    /** Reads ahead and decides whether the output line is complete */
    method LookAhead(line: string) returns (more: bool)
      requires Allocated() && Held() == [] && !continuationLine && IsCString(line)
      requires Rest() != [] ==> bufferFull == (line != "" && Open(line))
      modifies this`started, this`pos, this`continuationLine, temp
      ensures Allocated() && Pending() == old(Pending())
      ensures Pending() != [] ==> Held() != []
      ensures if more then MidLine(line) else Valid() && (line != "" ==> EndOfLine(line))
      ensures line == "" ==> !more
    {
      hide Delivered, CStr;
      var got := Refill();
      more := true;
      if !got {
        more := false;
      } else if |line| > 1 && line[|line| - 1] == LF && (temp[0] == ' ' || temp[0] == '\t') {
        continuationLine := true;
      } else if bufferFull {
      } else {
        more := false;
      }
    }

    /**
      One pass through the loop of `icalparser_get_line`; `more` tells whether it goes on.
      The very first pass of a reader finds the buffer clear and only looks ahead.
     */
    method Pass(line: string) returns (line': string, more: bool)
      requires Valid() || (Allocated() && MidLine(line))
      requires Held() == [] ==> line == ""
      requires Held() != [] ==> MidLine(line)
      modifies this, temp
      ensures Allocated() && IsCString(line')
      ensures old(Held()) == [] ==>
                !more && Valid() && line' == "" && Pending() == old(Pending()) && (Pending() != [] ==> Held() != [])
      ensures old(Held()) != [] ==>
                && |Pending()| < |old(Pending())|
                && RawLine(line, old(Pending())) == RawLine(line', Pending())
                && (if more then MidLine(line') else EndOfLine(line'))
    {
      hide RawLine, Delivered, CStr, Take;
      line' := line;
      if temp[0] != NUL {
        ghost var c, continuation, next := Held(), continuationLine, Delivered(Rest());
        TakeKeepsRawLine(line, c, next, continuation);
        line' := TakeHeld(line);
        assert Pending() == next;
      }
      more := LookAhead(line');
    }

    /** `icalparser_get_line` */
    method GetLine() returns (r: Option<string>)
      requires Valid()
      modifies this, temp
      ensures Valid()
      ensures Pending() != [] ==> Held() != []
      ensures old(Held()) == [] ==>
                Pending() == old(Pending()) && r == if Pending() == [] then None else Some("")
      ensures old(Held()) != [] ==> (r, Pending()) == NextLine(old(Pending()))
    {
      hide RawLine, NextLine, Delivered, CStr;
      var line, more := Pass("");
      while more
        invariant Allocated() && IsCString(line)
        invariant more ==> MidLine(line) && old(Held()) != []
        invariant old(Held()) == [] ==>
                    Valid() && line == "" && Pending() == old(Pending()) && (Pending() != [] ==> Held() != [])
        invariant old(Held()) != [] ==> RawLine([], old(Pending())) == RawLine(line, Pending())
        invariant old(Held()) != [] && !more ==> EndOfLine(line)
        decreases more, |Pending()|
      {
        line, more := Pass(line);
      }
      if old(Held()) != [] {
        RawLineDone(line, Pending());
        NextLineOf(old(Pending()));
      }
      if temp[0] == NUL && line == "" {
        return None;
      }
      var text := EraseLineEnd(line);
      r := Some(text);
    }
  }

  /** Erases the line end and trailing white space, as `icalparser_get_line` does before it returns */
  method EraseLineEnd(line: string) returns (r: string)
    requires IsCString(line)
    ensures r == Finish(line)
  {
    var p := |line|;
    var buf := line + [NUL];
    if p > 1 && buf[p - 1] == LF {
      buf := buf[p - 1 := NUL];
      if buf[p - 2] == CR {
        buf := buf[p - 2 := NUL];
      }
    } else {
      buf := buf[p := NUL];
    }
    ghost var kept := if |line| >= 2 && line[|line| - 1] == LF then DropEol(line) else line;
    assert buf[..|kept|] == kept;
    CStrUntil(buf, |kept|);
    r := StripBackwards(buf, p);
  }

  /** The final loop of `icalparser_get_line`: clears white space from position `from` downwards */
  method StripBackwards(from: seq<char>, start: nat) returns (r: string)
    requires start < |from| && |CStr(from)| <= start
    requires forall k :: |CStr(from)| <= k < |from| ==> from[k] == NUL
    ensures r == StripKeepFirst(CStr(from))
  {
    var buf, p := from, start;
    while (buf[p] == NUL || IsSpace(buf[p])) && p > 0
      invariant 0 <= p < |buf|
      invariant |CStr(buf)| <= p + 1
      invariant forall k :: |CStr(buf)| <= k < |buf| ==> buf[k] == NUL
      invariant StripKeepFirst(CStr(buf)) == StripKeepFirst(CStr(from))
    {
      ghost var was := CStr(buf);
      buf := buf[p := NUL];
      if |was| > p {
        assert buf[..p] == was[..p];
        CStrUntil(buf, p);
      } else {
        assert buf[..|was|] == was;
        CStrUntil(buf, |was|);
      }
      p := p - 1;
    }
    r := CStr(buf);
  }

  /** Appends a chunk to the output, replacing the fold when the chunk starts a continuation line */
  function Take(line: string, c: string, continuation: bool): string
    requires c != [] && (continuation ==> |line| >= 2)
  {
    if continuation then DropEol(line) + c[1..] else line + c
  }

  lemma PieceOfLine(c: string, more: string)
    requires c != [] && LF !in c[..|c| - 1]
    ensures |c| <= FirstLineEnd(c + more)
    ensures (c + more)[..|c|] == c && (c + more)[|c|..] == more
  {
  }

  lemma RawLineDone(raw: string, s: string)
    requires s != [] ==> !Open(raw) && !Folds(raw, s)
    ensures RawLine(raw, s) == (raw, s)
  {
  }

  lemma NextLineOf(pending: string)
    ensures var (raw, rest) := RawLine([], pending);
            NextLine(pending) == (if raw == [] && rest == [] then None else Some(Finish(raw)), rest)
  {
  }

  lemma TakeKeepsOpen(line: string, c: string, continuation: bool)
    requires c != [] && (continuation ==> |line| >= 2 && |c| >= 2)
    ensures Take(line, c, continuation) != [] && Open(Take(line, c, continuation)) == Open(c)
  {
  }

  lemma TakeKeepsRawLine(line: string, c: string, more: string, continuation: bool)
    requires c != [] && LF !in c[..|c| - 1]
    requires if continuation then Folds(line, c) && (|c| == 1 ==> more == []) else Open(line)
    ensures RawLine(line, c + more) == RawLine(Take(line, c, continuation), more)
  {
    PieceOfLine(c, more);
    if continuation {
      assert (c + more)[1..|c|] == c[1..];
      AbsorbContinuation(line, c + more, |c|);
    } else {
      AbsorbPiece(line, c + more, |c|);
    }
  }

  // ------------------------------------------------------------------------------------
  // Whole runs

  /** The content lines of a text: split, join, strip */
  function ContentLines(s: string): seq<string> {
    LogicalLines(PhysicalLines(s))
  }

  lemma NextLineIsFirst(s: string)
    requires s != []
    ensures var (r, rest) := NextLine(s);
            ContentLines(s) == (if r.None? then [] else [r.value]) + ContentLines(rest)
  {
    var n := FirstLineEnd(s);
    assert RawLine([], s) == RawLine(s[..n], s[n..]) by { assert [] + s[..n] == s[..n]; }
    assert PhysicalLines(s)[1..] == PhysicalLines(s[n..]);
    JoinIsRawLine(s[..n], s[n..]);
  }

  /** What a reader still has to return: the look-ahead makes a fresh reader start with an empty line */
  ghost function Remaining(r: Reader): seq<string>
    requires r.Valid()
    reads r, r.temp
  {
    if r.Held() == [] && r.Pending() != [] then [""] + ContentLines(r.Pending()) else ContentLines(r.Pending())
  }

  /** One call takes exactly the first of the lines that remain, and signals the end when none do */
  method NextRemaining(reader: Reader) returns (line: Option<string>)
    requires reader.Valid()
    modifies reader, reader.temp
    ensures reader.Valid()
    ensures line.None? ==> old(Remaining(reader)) == []
    ensures line.Some? ==> old(Remaining(reader)) == [line.value] + Remaining(reader)
    ensures line.Some? ==> |reader.Pending()| < |old(reader.Pending())| ||
                           (reader.Pending() == old(reader.Pending()) && reader.Held() != [] &&
                            old(reader.Held()) == [])
  {
    ghost var pending := reader.Pending();
    if reader.Held() != [] {
      NextLineIsFirst(pending);
    }
    line := reader.GetLine();
    assert ContentLines([]) == [];
  }

  /** Calls `icalparser_get_line` until it signals the end of the input, as `icalparser_parse` does */
  method ReadLines(input: string) returns (lines: seq<string>)
    requires IsCString(input)
    ensures var text := Delivered(SkipBom(input));
            lines == if text == "" then [] else [""] + ContentLines(text)
  {
    hide ContentLines, Delivered, SkipBom, CStr;
    var reader := new Reader(input);
    lines := [];
    ghost var all := Remaining(reader);
    ghost var left := all;
    var line := NextRemaining(reader);
    while line.Some?
      invariant reader.Valid() && fresh(reader) && fresh(reader.temp)
      invariant all == lines + left
      invariant left == if line.Some? then [line.value] + Remaining(reader) else []
      decreases line.Some?, |reader.Pending()|, reader.Held() == []
    {
      left := Remaining(reader);
      ConcatAssoc(lines, [line.value], left);
      lines := lines + [line.value];
      line := NextRemaining(reader);
    }
  }

  /** The reader on LF and CRLF input, wherever the chunk boundaries fall */
  method ReadTerminatedLines(input: string) returns (lines: seq<string>)
    requires IsCString(input) && LfTerminated(SkipBom(input)) && SkipBom(input) != ""
    ensures lines == [""] + ContentLines(SkipBom(input))
  {
    DeliveredIsInput(SkipBom(input));
    lines := ReadLines(input);
  }
}
