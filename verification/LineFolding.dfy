/** The folding of content lines by `icalproperty.c` (section 3.1 of RFC 5545). */
module LineFolding {
  import opened CText
  import opened LineReader
  import Utf8

  const MAX_LINE_LEN: nat := 75

  predicate IsBreak(c: char) {
    c == ';' || c == ':' || c == ' '
  }

  /** `(c & 128) == 0` or `(c & 192) == 192` */
  predicate IsBoundary(c: char) {
    (c as int / 128) % 2 == 0 || (c as int / 64) % 4 == 3
  }

  /** The last position from `k` down to 1 that satisfies `p`, or 0 */
  function LastIndex(t: string, k: nat, p: char -> bool): (i: nat)
    requires k < |t|
    ensures i <= k
    ensures i > 0 ==> p(t[i])
    ensures forall j :: i < j <= k ==> !p(t[j])
  {
    if k == 0 || p(t[k]) then k else LastIndex(t, k - 1, p)
  }

  /** How many octets of `t` go on the current line */
  function NextStart(t: string): (n: nat)
    requires t != []
    ensures 0 < n <= |t| && n < MAX_LINE_LEN
  {
    if |t| < MAX_LINE_LEN then |t|
    else
      var sep := LastIndex(t, MAX_LINE_LEN - 2, IsBreak);
      var cut := LastIndex(t, MAX_LINE_LEN - 1, IsBoundary);
      if sep > 0 then sep + 1 else if cut > 0 then cut else MAX_LINE_LEN - 1
  }

  /** No `;`, `:` or blank from place `i` on that would still fit the line */
  predicate NoSeparator(t: string, i: nat)
    requires |t| >= 75
  {
    forall k :: i <= k <= 73 ==> t[k] != ';' && t[k] != ':' && t[k] != ' '
  }

  /** The text goes on, and its last separator among the octets 1 to 73 is at `k` */
  predicate LastSeparator(t: string, k: nat) {
    |t| >= 75 && 1 <= k <= 73 && (t[k] == ';' || t[k] == ':' || t[k] == ' ') && NoSeparator(t, k + 1)
  }

  /** If there is such a separator, the cut at `n` comes right after it */
  ghost predicate CutsAfter(t: string, n: int) {
    forall k: nat :: LastSeparator(t, k) ==> n == k + 1
  }

  /** An octet that starts a character of UTF-8 */
  predicate StartsCharacter(c: char) {
    c as int < 0x80 || 0xC0 <= c as int < 0x100
  }

  /** A long line ends right after its last separator */
  lemma CutAfterSeparator(t: string, k: nat)
    requires LastSeparator(t, k)
    ensures NextStart(t) == k + 1
  {
    hide IsBoundary;
  }

  /** Without a separator it ends right before the last octet that starts a character */
  lemma CutBeforeCharacter(t: string, k: nat)
    requires |t| >= 75 && NoSeparator(t, 1) && 1 <= k <= 74 && StartsCharacter(t[k])
    requires t[k] as int < 0x100 && forall j :: k < j <= 74 ==> t[j] as int < 0x100 && !StartsCharacter(t[j])
    ensures NextStart(t) == k
  {
    hide IsBoundary, StartsCharacter;
    BoundaryStarts(t[k]);
    forall j | k < j <= 74 ensures !IsBoundary(t[j]) {
      BoundaryStarts(t[j]);
    }
  }

  lemma BoundaryStarts(c: char)
    requires c as int < 0x100
    ensures IsBoundary(c) == StartsCharacter(c)
  {
  }

  /** Without either it has 74 octets */
  lemma CutAnywhere(t: string)
    requires |t| >= 75 && NoSeparator(t, 1)
    requires forall j :: 1 <= j <= 74 ==> t[j] as int < 0x100 && !StartsCharacter(t[j])
    ensures NextStart(t) == 74
  {
    hide IsBoundary, StartsCharacter;
    forall j | 1 <= j <= 74 ensures !IsBoundary(t[j]) {
      BoundaryStarts(t[j]);
    }
  }

  /** The pieces that a text is cut into */
  function Pieces(t: string): (ps: seq<string>)
    ensures forall i :: 0 <= i < |ps| ==> 0 < |ps[i]| < MAX_LINE_LEN
    ensures t != [] ==> ps != []
  {
    if t == [] then [] else [t[..NextStart(t)]] + Pieces(t[NextStart(t)..])
  }

  function FoldedRest(ps: seq<string>): string {
    if ps == [] then [] else "\r\n " + ps[0] + FoldedRest(ps[1..])
  }

  /** The text of folded pieces: a line break and a space between any two of them */
  function Folded(ps: seq<string>): string {
    if ps == [] then [] else ps[0] + FoldedRest(ps[1..])
  }

  function Fold(t: string): string {
    Folded(Pieces(t))
  }

  /** A text that fits one line is left alone; a longer one goes on after a line break and a blank */
  lemma FoldCuts(t: string)
    ensures |t| < 75 ==> Fold(t) == t
    ensures |t| >= 75 ==> var n := NextStart(t); n < |t| && Fold(t) == t[..n] + "\r\n " + Fold(t[n..])
  {
    hide LastIndex;
    if t != [] {
      var n := NextStart(t);
      var rest := Pieces(t[n..]);
      assert Pieces(t) == [t[..n]] + rest && Pieces(t)[1..] == rest;
      if |t| < 75 {
        assert t[n..] == [] && t[..n] == t;
      } else {
        assert FoldedRest(rest) == "\r\n " + rest[0] + FoldedRest(rest[1..]);
        ConcatAssoc(t[..n], "\r\n ", Folded(rest));
      }
    }
  }

  // ------------------------------------------------------------------------------------
  // The C functions

  /** `get_next_line_start` */
  method GetNextLineStart(text: array<char>, lineStart: nat, charsLeft: nat) returns (next: nat)
    requires charsLeft > 0 && lineStart + charsLeft <= text.Length
    ensures next == lineStart + NextStart(text[lineStart..lineStart + charsLeft])
    ensures charsLeft < 75 ==> next == lineStart + charsLeft
    ensures CutsAfter(text[lineStart..lineStart + charsLeft], next - lineStart)
  {
    ghost var t := text[lineStart..lineStart + charsLeft];
    forall k: nat | LastSeparator(t, k) ensures NextStart(t) == k + 1 {
      CutAfterSeparator(t, k);
    }
    if charsLeft < MAX_LINE_LEN {
      return lineStart + charsLeft;
    }
    var pos := lineStart + MAX_LINE_LEN - 2;
    while pos > lineStart
      invariant lineStart <= pos <= lineStart + MAX_LINE_LEN - 2
      invariant LastIndex(t, MAX_LINE_LEN - 2, IsBreak) == LastIndex(t, pos - lineStart, IsBreak)
    {
      if text[pos] == ';' || text[pos] == ':' || text[pos] == ' ' {
        return pos + 1;
      }
      pos := pos - 1;
    }
    pos := lineStart + MAX_LINE_LEN - 1;
    while pos > lineStart
      invariant lineStart <= pos <= lineStart + MAX_LINE_LEN - 1
      invariant LastIndex(t, MAX_LINE_LEN - 1, IsBoundary) == LastIndex(t, pos - lineStart, IsBoundary)
    {
      if (text[pos] as int / 128) % 2 == 0 {
        return pos;
      }
      if (text[pos] as int / 64) % 4 == 3 {
        return pos;
      }
      pos := pos - 1;
    }
    next := lineStart + MAX_LINE_LEN - 1;
  }

  /**
    `fold_property_line`.  The loop copies each piece by putting a NUL into the text for a
    moment, so the text is modified and must come back unchanged.
   */
  method FoldPropertyLine(text: array<char>) returns (buf: string)
    requires NUL in text[..]
    modifies text
    ensures text[..] == old(text[..])
    ensures buf == Fold(CStr(text[..]))
  {
    ghost var t := CStr(text[..]);
    var charsLeft := |CStr(text[..])|;
    var lineStart := 0;
    var firstLine := true;
    buf := "";
    ghost var ps, folded := Pieces(t), Fold(t);
    assert t[0..] == t;
    while charsLeft > 0
      invariant text[..] == old(text[..])
      invariant 0 <= lineStart && 0 <= charsLeft && lineStart + charsLeft == |t|
      invariant ps == Pieces(t[lineStart..])
      invariant folded == buf + if firstLine then Folded(ps) else FoldedRest(ps)
    {
      var piece, next := TakePiece(text, lineStart, charsLeft, t);
      AppendPiece(buf, ps);
      if !firstLine {
        buf := buf + "\r\n ";
      }
      firstLine := false;
      buf := buf + piece;
      ps := ps[1..];
      charsLeft := charsLeft - (next - lineStart);
      lineStart := next;
    }
  }

  /** Finds where the next line starts and copies the current one */
  method TakePiece(text: array<char>, lineStart: nat, charsLeft: nat, ghost t: string)
    returns (piece: string, next: nat)
    requires t == CStr(text[..]) && |t| < text.Length
    requires charsLeft > 0 && lineStart + charsLeft == |t|
    modifies text
    ensures text[..] == old(text[..])
    ensures lineStart < next <= |t|
    ensures Pieces(t[lineStart..]) == [piece] + Pieces(t[next..])
  {
    hide Pieces;
    next := GetNextLineStart(text, lineStart, charsLeft);
    SliceOfCStr(text[..], lineStart);
    PiecesStep(t, lineStart);
    piece := CopyPiece(text, lineStart, next, t);
  }

  lemma AppendPiece(buf: string, ps: seq<string>)
    requires ps != []
    ensures buf + Folded(ps) == buf + ps[0] + FoldedRest(ps[1..])
    ensures buf + FoldedRest(ps) == buf + "\r\n " + ps[0] + FoldedRest(ps[1..])
  {
    ConcatAssoc(buf, "\r\n " + ps[0], FoldedRest(ps[1..]));
    ConcatAssoc(buf, ps[0], FoldedRest(ps[1..]));
    ConcatAssoc(buf, "\r\n ", ps[0]);
  }

  lemma SliceOfCStr(buf: seq<char>, i: nat)
    requires i <= |CStr(buf)|
    ensures buf[i..|CStr(buf)|] == CStr(buf)[i..]
  {
  }

  lemma PiecesStep(t: string, i: nat)
    requires i < |t|
    ensures var n := NextStart(t[i..]);
            Pieces(t[i..]) == [t[i..i + n]] + Pieces(t[i + n..])
  {
    var n := NextStart(t[i..]);
    DropDrop(t, i, n);
    assert t[i..][..n] == t[i..i + n];
  }

  /** Copies one line of the text by placing a NUL behind it and taking it away again */
  method CopyPiece(text: array<char>, lineStart: nat, next: nat, ghost t: string) returns (piece: string)
    requires t == CStr(text[..]) && |t| < text.Length
    requires lineStart <= next <= |t|
    modifies text
    ensures text[..] == old(text[..])
    ensures piece == t[lineStart..next]
  {
    hide CStr;
    ghost var buf := text[..];
    CutOut(buf, t, lineStart, next);
    var ch := text[next];
    text[next] := NUL;
    assert text[..] == buf[next := NUL];
    assert text[lineStart..] == text[..][lineStart..];
    piece := CStr(text[lineStart..]);
    text[next] := ch;
    assert text[..] == buf;
  }

  lemma SameSlice(buf: seq<char>, m: nat, i: nat, n: nat)
    requires i <= n <= m <= |buf| && n < |buf|
    ensures buf[n := NUL][i..][..n - i] == buf[..m][i..n]
  {
    var a, b := buf[n := NUL][i..][..n - i], buf[..m][i..n];
    forall k | 0 <= k < n - i ensures a[k] == b[k] {
      assert a[k] == buf[i + k] && b[k] == buf[i + k];
    }
    assert |a| == |b| == n - i;
  }

  /** The C string between a position and a NUL that is put behind it */
  lemma CutOut(buf: seq<char>, t: string, i: nat, n: nat)
    requires t == CStr(buf) && i <= n <= |t| < |buf|
    ensures CStr(buf[n := NUL][i..]) == t[i..n]
  {
    hide CStr;
    var cut := buf[n := NUL][i..];
    assert cut[n - i] == NUL;
    SameSlice(buf, |t|, i, n);
    CStrUntil(cut, n - i);
  }

  // ------------------------------------------------------------------------------------
  // Layout of the folded text

  /** A text of one content line: its only line feed is its last octet */
  predicate IsLineText(t: string) {
    t != [] && t[|t| - 1] == LF && LF !in t[..|t| - 1]
  }

  /** Pieces of such a text */
  predicate ArePieces(ps: seq<string>) {
    && ps != []
    && (forall i :: 0 <= i < |ps| - 1 ==> LF !in ps[i])
    && IsLineText(ps[|ps| - 1])
  }

  lemma {:induction false} PiecesOfLineText(t: string)
    requires IsLineText(t)
    ensures ArePieces(Pieces(t)) && Flatten(Pieces(t)) == t
    decreases |t|
  {
    hide NextStart;
    var n := NextStart(t);
    var tail := t[n..];
    assert t == t[..n] + tail;
    if n < |t| {
      LineTextCut(t, n);
      PiecesOfLineText(tail);
      ArePiecesCons(t[..n], Pieces(tail));
    } else {
      assert t[..n] == t;
      assert Pieces(t) == [t];
    }
  }

  lemma LineTextCut(t: string, n: nat)
    requires IsLineText(t) && n < |t|
    ensures LF !in t[..n] && IsLineText(t[n..])
  {
    assert t[n..][..|t| - n - 1] == t[..|t| - 1][n..];
    assert t[..n] == t[..|t| - 1][..n];
  }

  lemma ArePiecesCons(p: string, ps: seq<string>)
    requires LF !in p && ArePieces(ps)
    ensures ArePieces([p] + ps)
  {
  }

  /** The physical lines after the first one */
  function ContinuationLines(ps: seq<string>): (lines: seq<string>)
    ensures |lines| == |ps|
  {
    if ps == [] then [] else [" " + ps[0] + Break(ps[1..])] + ContinuationLines(ps[1..])
  }

  function Break(rest: seq<string>): string {
    if rest == [] then "" else "\r\n"
  }

  function FoldedLines(ps: seq<string>): seq<string>
    requires ps != []
  {
    [ps[0] + Break(ps[1..])] + ContinuationLines(ps[1..])
  }

  lemma RegroupBreak(p: string, f: string)
    ensures "\r\n " + p + ("\r\n" + f) == "\r\n" + (" " + p + "\r\n" + f)
    ensures p + ("\r\n" + f) == p + "\r\n" + f
    ensures "\r\n " + p + "" == "\r\n" + (" " + p + "" + "")
  {
  }

  lemma {:induction false} ContinuationText(ps: seq<string>)
    requires ps != []
    ensures FoldedRest(ps) == "\r\n" + Flatten(ContinuationLines(ps))
  {
    if |ps| == 1 {
      assert ps[1..] == [];
      assert ContinuationLines(ps) == [" " + ps[0] + ""];
      RegroupBreak(ps[0], "");
    } else {
      ContinuationText(ps[1..]);
      RegroupBreak(ps[0], Flatten(ContinuationLines(ps[1..])));
    }
  }

  lemma FoldedText(ps: seq<string>)
    requires ps != []
    ensures Folded(ps) == Flatten(FoldedLines(ps))
  {
    if |ps| == 1 {
      assert ps[1..] == [];
      assert FoldedLines(ps) == [ps[0] + ""];
    } else {
      ContinuationText(ps[1..]);
      RegroupBreak(ps[0], Flatten(ContinuationLines(ps[1..])));
    }
  }

  /** The octets of a physical line, its line break not counted */
  function WithoutBreak(line: string): string {
    if |line| >= 2 && line[|line| - 1] == LF then DropEol(line) else line
  }

  lemma PieceLine(p: string, lead: string, last: bool)
    requires LF !in lead
    requires if last then IsLineText(p) else LF !in p
    ensures IsLineText(lead + p + (if last then "" else "\r\n"))
  {
    var line := lead + p + (if last then "" else "\r\n");
    assert line[..|line| - 1] == if last then lead + p[..|p| - 1] else lead + p + "\r";
  }

  lemma {:induction false} ContinuationLineTexts(ps: seq<string>)
    requires ArePieces(ps)
    ensures forall i :: 0 <= i < |ps| ==> IsLineText(ContinuationLines(ps)[i])
  {
    PieceLine(ps[0], " ", |ps| == 1);
    if |ps| > 1 {
      ContinuationLineTexts(ps[1..]);
    }
  }

  lemma FoldedLineTexts(ps: seq<string>)
    requires ArePieces(ps)
    ensures forall i :: 0 <= i < |FoldedLines(ps)| ==> IsLineText(FoldedLines(ps)[i])
  {
    PieceLine(ps[0], "", |ps| == 1);
    assert "" + ps[0] == ps[0];
    if |ps| > 1 {
      ContinuationLineTexts(ps[1..]);
    }
  }

  lemma PhysicalCons(line: string, rest: string)
    requires IsLineText(line)
    ensures PhysicalLines(line + rest) == [line] + PhysicalLines(rest)
  {
    var s := line + rest;
    assert s[..|line| - 1] == line[..|line| - 1];
    FirstLineEndUnique(s, |line|);
    assert s[..|line|] == line && s[|line|..] == rest;
  }

  lemma FlattenFirst(lines: seq<string>)
    ensures Flatten(lines) == if lines == [] then [] else lines[0] + Flatten(lines[1..])
  {
  }

  lemma {:induction false} PhysicalOfLines(lines: seq<string>, rest: string)
    requires forall i :: 0 <= i < |lines| ==> IsLineText(lines[i])
    ensures PhysicalLines(Flatten(lines) + rest) == lines + PhysicalLines(rest)
  {
    hide PhysicalLines, IsLineText, Flatten;
    FlattenFirst(lines);
    if lines != [] {
      PhysicalOfLines(lines[1..], rest);
      ConcatAssoc(lines[0], Flatten(lines[1..]), rest);
      PhysicalCons(lines[0], Flatten(lines[1..]) + rest);
      assert lines == [lines[0]] + lines[1..];
      ConcatAssoc([lines[0]], lines[1..], PhysicalLines(rest));
    } else {
      assert [] + rest == rest && [] + PhysicalLines(rest) == PhysicalLines(rest);
    }
  }

  /** The folded text of a line consists of these lines */
  lemma LinesOfFolded(ps: seq<string>, rest: string)
    requires ArePieces(ps)
    ensures PhysicalLines(Folded(ps) + rest) == FoldedLines(ps) + PhysicalLines(rest)
  {
    FoldedLineTexts(ps);
    FoldedText(ps);
    PhysicalOfLines(FoldedLines(ps), rest);
  }

  // ------------------------------------------------------------------------------------
  // Every text, whatever line breaks it holds

  /** No physical line is longer than the limit, its line break not counted */
  predicate AllShort(lines: seq<string>) {
    forall i :: 0 <= i < |lines| ==> |WithoutBreak(lines[i])| <= MAX_LINE_LEN
  }

  lemma FirstOfPhysical(s: string, n: nat)
    requires 0 < n <= |s| && LF !in s[..n - 1] && (n < |s| ==> s[n - 1] == LF)
    ensures PhysicalLines(s) == [s[..n]] + PhysicalLines(s[n..])
  {
    FirstLineEndUnique(s, n);
  }

  lemma ShortFirst(line: string, lines: seq<string>)
    requires |WithoutBreak(line)| <= MAX_LINE_LEN && AllShort(lines)
    ensures AllShort([line] + lines)
  {
    hide WithoutBreak;
  }

  /** A short text before a break keeps lines short, even if it holds line feeds of its own */
  lemma {:induction false} ShortBefore(p: string, rest: string)
    requires |p| <= MAX_LINE_LEN && AllShort(PhysicalLines(rest))
    ensures AllShort(PhysicalLines(p + ("\r\n" + rest)))
    decreases |p|
  {
    hide PhysicalLines, AllShort;
    var s := p + ("\r\n" + rest);
    if LF in p {
      var k := StrChr(p, LF);
      assert s[..k] == p[..k] && s[k] == LF;
      FirstOfPhysical(s, k + 1);
      assert s[k + 1..] == p[k + 1..] + ("\r\n" + rest);
      ShortBefore(p[k + 1..], rest);
      ShortFirst(s[..k + 1], PhysicalLines(s[k + 1..]));
    } else {
      var n := |p| + 2;
      assert s[..n] == p + "\r\n" && s[n..] == rest && s[..n - 1] == p + "\r";
      FirstOfPhysical(s, n);
      BreakDropped(p);
      ShortFirst(s[..n], PhysicalLines(rest));
    }
  }

  lemma BreakDropped(p: string)
    ensures WithoutBreak(p + "\r\n") == p
  {
    var line := p + "\r\n";
    assert line[..|line| - 1] == p + "\r" && line[..|line| - 1][..|p|] == p;
  }

  lemma {:induction false} ShortAlone(p: string)
    requires |p| <= MAX_LINE_LEN
    ensures AllShort(PhysicalLines(p))
    decreases |p|
  {
    if p != [] {
      ShortAlone(p[FirstLineEnd(p)..]);
    }
  }

  lemma {:induction false} ShortFolded(p: string, ps: seq<string>)
    requires |p| <= MAX_LINE_LEN && forall i :: 0 <= i < |ps| ==> |ps[i]| < MAX_LINE_LEN
    ensures AllShort(PhysicalLines(p + FoldedRest(ps)))
    decreases |ps|
  {
    hide PhysicalLines, AllShort;
    if ps == [] {
      assert p + FoldedRest(ps) == p;
      ShortAlone(p);
    } else {
      var next, tail := " " + ps[0], FoldedRest(ps[1..]);
      ShortFolded(next, ps[1..]);
      ShortBefore(p, next + tail);
      assert "\r\n " + ps[0] + tail == "\r\n" + (next + tail);
    }
  }

  lemma {:induction false} PiecesAddUp(t: string)
    ensures Flatten(Pieces(t)) == t
    decreases |t|
  {
    hide NextStart;
    if t != [] {
      PiecesAddUp(t[NextStart(t)..]);
    }
  }

  /**
    For every text: the pieces add up to it, and no physical line of the folded text has more
    than 75 octets, its line break not counted
   */
  lemma FoldLayout(t: string)
    ensures Flatten(Pieces(t)) == t
    ensures AllShort(PhysicalLines(Fold(t)))
  {
    hide PhysicalLines, AllShort, Flatten, FoldedRest;
    PiecesAddUp(t);
    var ps := Pieces(t);
    if ps == [] {
      ShortAlone([]);
    } else {
      ShortFolded(ps[0], ps[1..]);
    }
  }

  // ------------------------------------------------------------------------------------
  // Reading a folded text back

  lemma UnfoldOne(done: string, p: string, eol: string)
    ensures var raw := done + "\r\n";
            var line := " " + p + eol;
            Folds(raw, line) && DropEol(raw) + line[1..] == done + p + eol
  {
    var raw := done + "\r\n";
    assert raw[..|raw| - 1] == done + "\r" && raw[..|raw| - 1][..|done|] == done;
  }

  /** Unfolding puts the pieces together again, whatever octet each piece ends with */
  lemma {:induction false} UnfoldRest(done: string, ps: seq<string>, more: seq<string>)
    requires ps != []
    requires more != [] ==> !Folds(done + Flatten(ps), more[0])
    ensures Join(done + "\r\n", ContinuationLines(ps) + more) == (done + Flatten(ps), more)
    decreases |ps|
  {
    hide Join, Folds, DropEol, ContinuationLines;
    var lines := ContinuationLines(ps) + more;
    ContinuationCons(ps);
    UnfoldOne(done, ps[0], Break(ps[1..]));
    assert lines[0] == " " + ps[0] + Break(ps[1..]);
    assert lines[1..] == ContinuationLines(ps[1..]) + more;
    ConcatAssoc(done, ps[0], Flatten(ps[1..]));
    JoinStep(done + "\r\n", lines, done + ps[0] + Break(ps[1..]));
    if |ps| > 1 {
      UnfoldRest(done + ps[0], ps[1..], more);
    } else {
      assert ContinuationLines(ps[1..]) + more == more;
      assert done + ps[0] + "" == done + ps[0] + Flatten(ps[1..]);
      JoinStop(done + Flatten(ps), more);
    }
  }

  lemma ContinuationCons(ps: seq<string>)
    requires ps != []
    ensures ContinuationLines(ps) == [" " + ps[0] + Break(ps[1..])] + ContinuationLines(ps[1..])
    ensures |ps| == 1 ==> ContinuationLines(ps[1..]) == []
  {
  }

  lemma UnfoldLines(ps: seq<string>, more: seq<string>)
    requires ps != []
    requires more != [] ==> !Folds(Flatten(ps), more[0])
    ensures Join(FoldedLines(ps)[0], FoldedLines(ps)[1..] + more) == (Flatten(ps), more)
  {
    assert FoldedLines(ps)[1..] == ContinuationLines(ps[1..]);
    if |ps| > 1 {
      UnfoldRest(ps[0], ps[1..], more);
    } else {
      assert ContinuationLines(ps[1..]) + more == more;
      assert ps[0] + "" == Flatten(ps);
    }
  }

  /** A property text without CR and LF in its body */
  predicate IsBody(body: string) {
    CR !in body && LF !in body
  }

  lemma LineTextOfBody(body: string)
    requires IsBody(body)
    ensures IsLineText(body + "\r\n") && DropEol(body + "\r\n") == body
  {
    var t := body + "\r\n";
    assert t[..|t| - 1] == body + "\r" && t[..|t| - 1][..|body|] == body;
  }

  /** The reader turns folded pieces and the lines that follow into one line and the rest */
  lemma ContentOfFolded(ps: seq<string>, rest: string)
    requires ArePieces(ps)
    requires rest != [] ==> !IsBlank(rest[0])
    ensures ContentLines(Folded(ps) + rest) == [Finish(Flatten(ps))] + ContentLines(rest)
  {
    hide FoldedLines, Folded, Join, ArePieces, Flatten;
    LinesOfFolded(ps, rest);
    PiecesText(ps);
    var lines, more := FoldedLines(ps), PhysicalLines(rest);
    FirstPhysical(rest);
    FoldedLinesNonempty(ps);
    UnfoldLines(ps, more);
    assert (lines + more)[0] == lines[0] && (lines + more)[1..] == lines[1..] + more;
    LogicalFirst(lines + more, Flatten(ps), more);
  }

  lemma {:induction false} PiecesText(ps: seq<string>)
    requires ArePieces(ps)
    ensures ps != [] && IsLineText(Flatten(ps))
  {
    if |ps| == 1 {
      assert ps[1..] == [];
      assert Flatten(ps) == ps[0];
    } else {
      PiecesText(ps[1..]);
      var t := Flatten(ps[1..]);
      assert (ps[0] + t)[..|ps[0] + t| - 1] == ps[0] + t[..|t| - 1];
    }
  }

  lemma FirstPhysical(rest: string)
    ensures rest != [] ==> PhysicalLines(rest) != [] && PhysicalLines(rest)[0][0] == rest[0]
    ensures rest == [] ==> PhysicalLines(rest) == []
  {
  }

  lemma FoldedLinesNonempty(ps: seq<string>)
    requires ps != []
    ensures FoldedLines(ps) != []
  {
  }

  lemma LogicalFirst(lines: seq<string>, raw: string, rest: seq<string>)
    requires lines != [] && raw != [] && Join(lines[0], lines[1..]) == (raw, rest)
    ensures LogicalLines(lines) == [Finish(raw)] + LogicalLines(rest)
  {
  }

  /**
    Fold, then read: the reader returns the text without its trailing white space, also when
    the fold falls between the final CR and LF, and goes on with what follows.
   */
  lemma FoldReadBack(body: string, rest: string)
    requires IsBody(body)
    requires rest != [] ==> !IsBlank(rest[0])
    ensures ContentLines(Fold(body + "\r\n") + rest) == [StripKeepFirst(body)] + ContentLines(rest)
  {
    LineTextOfBody(body);
    PiecesOfLineText(body + "\r\n");
    ContentOfFolded(Pieces(body + "\r\n"), rest);
  }

  lemma {:induction false} FoldedNoNul(ps: seq<string>)
    requires forall i :: 0 <= i < |ps| ==> IsCString(ps[i])
    ensures IsCString(FoldedRest(ps)) && IsCString(Folded(ps))
  {
    if ps != [] {
      FoldedNoNul(ps[1..]);
    }
  }

  lemma {:induction false} PiecesNoNul(t: string)
    requires IsCString(t)
    ensures forall i :: 0 <= i < |Pieces(t)| ==> IsCString(Pieces(t)[i])
    decreases |t|
  {
    hide NextStart;
    if t != [] {
      PiecesNoNul(t[NextStart(t)..]);
    }
  }

  lemma FoldNoNul(t: string)
    requires IsCString(t)
    ensures IsCString(Fold(t))
  {
    PiecesNoNul(t);
    FoldedNoNul(Pieces(t));
  }

  lemma NoContent()
    ensures ContentLines([]) == []
  {
  }

  /** A byte order mark at the start is never cut in two */
  lemma MarkInFirst(t: string)
    requires IsLineText(t) && SkipBom(t) != t
    ensures NextStart(t) >= 3
  {
  }

  lemma MarkSkipped(t: string)
    requires IsLineText(t) && SkipBom(t) != t
    ensures var ps := Pieces(t);
            && ps != [] && |ps[0]| >= 3
            && SkipBom(Fold(t)) == Folded([ps[0][3..]] + ps[1..])
  {
    hide NextStart;
    MarkInFirst(t);
    var ps := Pieces(t);
    assert ps[0] == t[..NextStart(t)];
    var f := Fold(t);
    assert f == ps[0] + FoldedRest(ps[1..]);
    assert f[0] == t[0] && f[1] == t[1] && f[2] == t[2];
    assert f[3..] == ps[0][3..] + FoldedRest(ps[1..]);
    assert ([ps[0][3..]] + ps[1..])[1..] == ps[1..];
  }

  lemma NoMark(t: string)
    requires t != [] && SkipBom(t) == t
    ensures SkipBom(Fold(t)) == Fold(t)
  {
    hide NextStart;
    var ps := Pieces(t);
    var f := Fold(t);
    assert ps[0] == t[..NextStart(t)];
    assert f == ps[0] + FoldedRest(ps[1..]);
    if |f| >= 3 && |ps[0]| >= 3 {
      assert f[0] == t[0] && f[1] == t[1] && f[2] == t[2];
    }
  }

  lemma {:induction false} FoldedEnd(ps: seq<string>)
    requires ArePieces(ps)
    ensures Folded(ps) != [] && Folded(ps)[|Folded(ps)| - 1] == LF
    decreases |ps|
  {
    if |ps| == 1 {
      assert ps[1..] == [] && Folded(ps) == ps[0];
    } else {
      FoldedEnd(ps[1..]);
      assert FoldedRest(ps[1..]) == "\r\n " + Folded(ps[1..]);
    }
  }

  /** The pieces of a line without the byte order mark */
  lemma MarkDropped(t: string)
    requires IsLineText(t)
    ensures exists ps :: ArePieces(ps) && Flatten(ps) == SkipBom(t) && SkipBom(Fold(t)) == Folded(ps)
  {
    hide Fold, Pieces, Folded;
    PiecesOfLineText(t);
    var ps := Pieces(t);
    FoldOfPieces(t);
    if SkipBom(t) == t {
      NoMark(t);
    } else {
      MarkSkipped(t);
      FirstWithout(ps, 3);
      assert t[3..] == SkipBom(t);
    }
  }

  lemma FoldOfPieces(t: string)
    ensures Fold(t) == Folded(Pieces(t))
  {
  }

  lemma FirstWithout(ps: seq<string>, n: nat)
    requires ArePieces(ps) && n <= |ps[0]| && n < |Flatten(ps)|
    ensures var qs := [ps[0][n..]] + ps[1..]; ArePieces(qs) && Flatten(qs) == Flatten(ps)[n..]
  {
    hide IsLineText;
    var p, rest := ps[0], ps[1..];
    FlattenWithout(ps, n);
    if rest == [] {
      LineTextCut(p, n);
    } else {
      ArePiecesCons(p[n..], rest);
    }
  }

  lemma FlattenWithout(ps: seq<string>, n: nat)
    requires ps != [] && n <= |ps[0]|
    ensures Flatten([ps[0][n..]] + ps[1..]) == Flatten(ps)[n..]
    ensures ps[1..] == [] ==> Flatten(ps) == ps[0]
  {
    assert ([ps[0][n..]] + ps[1..])[1..] == ps[1..];
  }

  /** What the reader makes of a folded line at the start of its input */
  lemma FoldedInput(t: string)
    requires IsLineText(t)
    ensures var input := SkipBom(Fold(t));
            input != [] && LfTerminated(input) && ContentLines(input) == [Finish(SkipBom(t))]
  {
    hide *;
    MarkDropped(t);
    var ps :| ArePieces(ps) && Flatten(ps) == SkipBom(t) && SkipBom(Fold(t)) == Folded(ps);
    FoldedEnd(ps);
    EndsTerminated(Folded(ps));
    ContentOfFolded(ps, []);
    NoContent();
    assert Folded(ps) + [] == Folded(ps);
    assert [Finish(Flatten(ps))] + [] == [Finish(Flatten(ps))];
  }

  lemma EndsTerminated(s: string)
    requires s != [] && s[|s| - 1] == LF
    ensures LfTerminated(s)
  {
    assert s[|s| - 1..] == [LF];
  }

  lemma FinishBody(body: string)
    requires IsBody(body)
    ensures Finish(SkipBom(body + "\r\n")) == StripKeepFirst(SkipBom(body))
  {
    hide StripKeepFirst;
    var t := body + "\r\n";
    LineTextOfBody(body);
    if SkipBom(t) != t {
      assert |body| >= 3 && body[0] == t[0] && body[1] == t[1] && body[2] == t[2];
      assert t[3..] == body[3..] + "\r\n";
      LineTextOfBody(body[3..]);
    } else if |body| >= 3 {
      assert body[0] == t[0] && body[1] == t[1] && body[2] == t[2];
    }
  }

  /** The text in a buffer */
  method Terminated(t: string) returns (text: array<char>)
    requires IsCString(t)
    ensures fresh(text) && text[..] == t + [NUL] && CStr(text[..]) == t
  {
    text := new char[|t| + 1](i => if 0 <= i < |t| then t[i] else NUL);
    assert text[..] == t + [NUL];
    assert text[..][..|t|] == t;
    CStrUntil(text[..], |t|);
  }

  /**
    The C functions one after the other: folding a line and reading it in chunks gives the line
    without its trailing white space, and without a byte order mark at its start
   */
  method FoldAndRead(body: string) returns (lines: seq<string>)
    requires IsBody(body) && IsCString(body)
    ensures lines == ["", StripKeepFirst(SkipBom(body))]
  {
    hide *;
    var t := body + "\r\n";
    NoNulBefore(body);
    var text := Terminated(t);
    var folded := FoldPropertyLine(text);
    FoldNoNul(t);
    LineTextOfBody(body);
    FoldedInput(t);
    FinishBody(body);
    lines := ReadTerminatedLines(folded);
  }

  lemma NoNulBefore(body: string)
    requires IsCString(body)
    ensures IsCString(body + "\r\n")
  {
  }

  // ------------------------------------------------------------------------------------
  // UTF-8

  /** On well-formed UTF-8 the fallback of breaking anywhere at 74 octets is never reached */
  lemma FallbackUnreachable(t: string)
    requires Utf8.Valid(t) && |t| >= MAX_LINE_LEN
    ensures LastIndex(t, MAX_LINE_LEN - 1, IsBoundary) > 0
  {
    var i := Utf8.StartNearby(t);
    Utf8.OctetKinds(t, i);
    assert IsBoundary(t[i]);
  }

  /** A line of well-formed UTF-8 is cut between code points */
  lemma CutBetweenCodePoints(t: string)
    requires Utf8.Valid(t) && t != []
    ensures Utf8.Valid(t[..NextStart(t)]) && Utf8.Valid(t[NextStart(t)..])
  {
    var n := NextStart(t);
    if |t| >= MAX_LINE_LEN {
      var sep := LastIndex(t, MAX_LINE_LEN - 2, IsBreak);
      if sep > 0 {
        Utf8.OctetKinds(t, sep);
      } else {
        FallbackUnreachable(t);
        Utf8.OctetKinds(t, n);
      }
    }
    Utf8.CutAtBoundary(t, n);
  }

  /** Folding never splits a code point: every piece is well-formed when the text is */
  lemma {:induction false} PiecesAreUtf8(t: string)
    requires Utf8.Valid(t)
    ensures forall i :: 0 <= i < |Pieces(t)| ==> Utf8.Valid(Pieces(t)[i])
    decreases |t|
  {
    if t != [] {
      CutBetweenCodePoints(t);
      PiecesAreUtf8(t[NextStart(t)..]);
    }
  }
}
