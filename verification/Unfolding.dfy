/**
  What the reader makes of line breaks, said of the text alone: a line break before a blank or
  a tab vanishes together with that octet, wherever it stands, and one before anything else
  ends a content line.
 */
module Unfolding {
  import opened CText
  import opened LineReader

  lemma FirstCut(x: string, y: string)
    requires x != [] && LF !in x
    ensures y != [] ==> FirstLineEnd(x + y) == |x| + FirstLineEnd(y)
    ensures y == [] ==> FirstLineEnd(x + y) == |x|
  {
    var s := x + y;
    var n := |x| + if y == [] then 0 else FirstLineEnd(y);
    assert s[..n - 1] == if y == [] then x[..|x| - 1] else x + y[..FirstLineEnd(y) - 1];
    assert n < |s| ==> s[n - 1] == y[n - |x| - 1];
    FirstLineEndUnique(s, n);
  }

  /** The first physical line of `y`, and what comes after it */
  function Head(y: string): string {
    if y == [] then [] else y[..FirstLineEnd(y)]
  }

  function Tail(y: string): string {
    if y == [] then [] else y[FirstLineEnd(y)..]
  }

  lemma LinesOfOpen(x: string, y: string)
    requires x != [] && LF !in x
    ensures PhysicalLines(x + y) == [x + Head(y)] + PhysicalLines(Tail(y))
  {
    hide FirstLineEnd;
    FirstCut(x, y);
    var s := x + y;
    if y == [] {
      assert s == x && s[..|x|] == x && s[|x|..] == [];
      assert x + Head(y) == x;
    } else {
      var n := FirstLineEnd(y);
      assert s[..|x| + n] == x + y[..n] && s[|x| + n..] == y[n..];
    }
  }

  lemma LinesOfClosed(x: string, y: string)
    requires LF !in x
    ensures PhysicalLines(x + [LF] + y) == [x + [LF]] + PhysicalLines(y)
  {
    var s, n := x + [LF] + y, |x| + 1;
    assert s[..n - 1] == x && s[..n] == x + [LF] && s[n..] == y && s[n - 1] == LF;
    FirstLineEndUnique(s, n);
  }

  predicate Finished(s: string) {
    s == [] || s[|s| - 1] == LF
  }

  lemma {:induction false} LinesConcat(q: string, s: string)
    requires Finished(q)
    ensures PhysicalLines(q + s) == PhysicalLines(q) + PhysicalLines(s)
    decreases |q|
  {
    hide PhysicalLines;
    if q == [] {
      assert q + s == s;
      NoLines();
      assert [] + PhysicalLines(s) == PhysicalLines(s);
    } else {
      var k := StrChr(q, LF);
      assert LF in q by { assert q[|q| - 1] == LF; }
      var x, rest := q[..k], q[k + 1..];
      assert q == x + [LF] + rest;
      assert q + s == x + [LF] + (rest + s);
      assert rest != [] ==> rest[|rest| - 1] == q[|q| - 1];
      LinesOfClosed(x, rest);
      LinesOfClosed(x, rest + s);
      LinesConcat(rest, s);
      ConcatAssoc([x + [LF]], PhysicalLines(rest), PhysicalLines(s));
    }
  }

  lemma NoLines()
    ensures PhysicalLines([]) == []
  {
  }

  // ------------------------------------------------------------------------------------
  // A line break before a blank or a tab

  /** The two lines that a break makes of one */
  function Broken(x: string, eol: string, b: char, z: string): seq<string> {
    [x + eol, [b] + z]
  }

  predicate IsFold(x: string, eol: string, b: char) {
    && x != [] && (b == ' ' || b == '\t')
    && (|| eol == "\r\n"
        || (eol == "\n" && x[|x| - 1] != '\r' && x != " " && x != "\t"))
  }

  lemma DropBreak(d: string, eol: string)
    requires eol == "\r\n" || (eol == "\n" && d != [] && d[|d| - 1] != '\r')
    requires d + eol != "\n"
    ensures |d + eol| >= 2 && (d + eol)[|d + eol| - 1] == LF && DropEol(d + eol) == d
  {
    var raw := d + eol;
    assert raw[..|raw| - 1] == if eol == "\n" then d else d + "\r";
    assert eol == "\r\n" ==> raw[..|raw| - 1][..|d|] == d;
  }

  predicate TakesUp(raw: string, x: string)
    requires x != []
  {
    |raw| >= 2 && raw[|raw| - 1] == LF && (x[0] == ' ' || x[0] == '\t')
  }

  /** Joining meets the two lines and goes on as if they were one */
  lemma JoinBroken(raw: string, x: string, eol: string, b: char, z: string, after: seq<string>)
    requires IsFold(x, eol, b) && TakesUp(raw, x)
    ensures Join(raw, Broken(x, eol, b, z) + after) == Join(raw, [x + z] + after)
    ensures |Join(raw, [x + z] + after).1| <= |after|
  {
    hide Join, DropEol;
    var two, one := Broken(x, eol, b, z) + after, [x + z] + after;
    var d := DropEol(raw) + x[1..];
    assert eol == "\n" ==> |x| > 1 && d[|d| - 1] == x[|x| - 1];
    DropBreak(d, eol);
    JoinStep(raw, two, DropEol(raw) + (x + eol)[1..]);
    assert DropEol(raw) + (x + eol)[1..] == d + eol;
    assert two[1..] == [[b] + z] + after;
    JoinStep(d + eol, two[1..], d + z);
    assert two[1..][1..] == after;
    JoinStep(raw, one, DropEol(raw) + (x + z)[1..]);
    assert DropEol(raw) + (x + z)[1..] == d + z && one[1..] == after;
    JoinShrinks(d + z, after);
  }

  lemma JoinNot(raw: string, x: string, y: string, after: seq<string>)
    requires x != [] && !TakesUp(raw, x)
    ensures Join(raw, [x + y] + after) == (raw, [x + y] + after)
  {
    assert (x + y)[0] == x[0];
    JoinStop(raw, [x + y] + after);
  }

  /** The same with lines before: joining stops at line `i` of them, or passes over the two */
  lemma {:induction false} JoinBefore(
    raw: string, ls: seq<string>, x: string, eol: string, b: char, z: string, after: seq<string>) returns (i: nat)
    requires IsFold(x, eol, b)
    ensures var two, one := Join(raw, ls + Broken(x, eol, b, z) + after), Join(raw, ls + [x + z] + after);
            && one.0 == two.0
            && (i <= |ls| ==> one.1 == ls[i..] + [x + z] + after && two.1 == ls[i..] + Broken(x, eol, b, z) + after)
            && (i > |ls| ==> one.1 == two.1 && |one.1| <= |after|)
    decreases |ls|
  {
    hide Join, DropEol, IsFold;
    var two, one := Broken(x, eol, b, z), [x + z];
    if ls == [] {
      assert ls + one + after == one + after && ls + two + after == two + after;
      FoldParts(x, eol, b);
      if TakesUp(raw, x) {
        JoinBroken(raw, x, eol, b, z, after);
        i := 1;
      } else {
        JoinNot(raw, x, z, after);
        JoinNot(raw, x, eol, [[b] + z] + after);
        assert [x + eol] + ([[b] + z] + after) == two + after;
        i := 0;
      }
    } else {
      var u, v := ls + two + after, ls + one + after;
      assert u[0] == ls[0] && u[1..] == ls[1..] + two + after;
      assert v[0] == ls[0] && v[1..] == ls[1..] + one + after;
      if Folds(raw, ls[0]) {
        var next := DropEol(raw) + ls[0][1..];
        JoinStep(raw, u, next);
        JoinStep(raw, v, next);
        var k := JoinBefore(next, ls[1..], x, eol, b, z, after);
        i := k + 1;
        if k <= |ls| - 1 {
          assert ls[1..][k..] == ls[i..];
        }
      } else {
        JoinStop(raw, u);
        JoinStop(raw, v);
        i := 0;
        assert ls[0..] == ls;
      }
    }
  }

  lemma FoldParts(x: string, eol: string, b: char)
    requires IsFold(x, eol, b)
    ensures x != []
  {
  }

  lemma LogicalStep(lines: seq<string>)
    requires lines != []
    ensures var (raw, rest) := Join(lines[0], lines[1..]);
            && |rest| < |lines|
            && LogicalLines(lines) == (if rest == [] && raw == [] then [] else [Finish(raw)]) + LogicalLines(rest)
  {
    JoinShrinks(lines[0], lines[1..]);
  }

  /** Two broken lines at the start of a content line */
  lemma LogicalBroken(x: string, eol: string, b: char, z: string, after: seq<string>)
    requires IsFold(x, eol, b)
    ensures LogicalLines(Broken(x, eol, b, z) + after) == LogicalLines([x + z] + after)
  {
    hide Join, DropEol, Finish, LogicalLines;
    var two, one := Broken(x, eol, b, z) + after, [x + z] + after;
    DropBreak(x, eol);
    assert two[0] == x + eol && two[1..] == [[b] + z] + after && one[1..] == after;
    JoinStep(x + eol, two[1..], x + z);
    assert two[1..][1..] == after;
    LogicalStep(two);
    LogicalStep(one);
  }

  lemma {:induction false} LogicalBefore(
    ls: seq<string>, x: string, eol: string, b: char, z: string, after: seq<string>)
    requires IsFold(x, eol, b)
    ensures LogicalLines(ls + Broken(x, eol, b, z) + after) == LogicalLines(ls + [x + z] + after)
    decreases |ls|
  {
    hide Join, IsFold, Broken, Finish, LogicalLines;
    var two, one := Broken(x, eol, b, z), [x + z];
    if ls == [] {
      assert ls + one + after == one + after && ls + two + after == two + after;
      LogicalBroken(x, eol, b, z, after);
    } else {
      var u, v := ls + two + after, ls + one + after;
      assert u[0] == ls[0] && u[1..] == ls[1..] + two + after;
      assert v[0] == ls[0] && v[1..] == ls[1..] + one + after;
      var i := JoinBefore(ls[0], ls[1..], x, eol, b, z, after);
      LogicalStep(u);
      LogicalStep(v);
      if i <= |ls| - 1 {
        BrokenNonempty(x, eol, b, z);
        LogicalBefore(ls[1..][i..], x, eol, b, z, after);
      }
    }
  }

  lemma BrokenNonempty(x: string, eol: string, b: char, z: string)
    ensures |Broken(x, eol, b, z)| == 2
  {
  }

  /** The last physical line of a text that does not end in a line feed, and what comes before it */
  lemma {:induction false} LastLine(p: string) returns (q: string, x: string)
    requires p != [] && p[|p| - 1] != LF
    ensures p == q + x && Finished(q) && x != [] && LF !in x && x[|x| - 1] == p[|p| - 1]
    decreases |p|
  {
    if |p| == 1 || p[|p| - 2] == LF {
      q, x := p[..|p| - 1], p[|p| - 1..];
    } else {
      var w;
      q, w := LastLine(p[..|p| - 1]);
      x := w + [p[|p| - 1]];
      assert p == p[..|p| - 1] + [p[|p| - 1]];
    }
  }

  lemma LinesOfBroken(q: string, x: string, eol: string, b: char, y: string)
    requires Finished(q) && LF !in x && IsFold(x, eol, b)
    ensures PhysicalLines(q + x + eol + [b] + y) ==
            PhysicalLines(q) + Broken(x, eol, b, Head(y)) + PhysicalLines(Tail(y))
    ensures PhysicalLines(q + x + y) == PhysicalLines(q) + [x + Head(y)] + PhysicalLines(Tail(y))
  {
    hide PhysicalLines, Head, Tail;
    var x' := if eol == "\n" then x else x + "\r";
    var s := [b] + y;
    assert q + x + eol + [b] + y == q + (x' + [LF] + s);
    LinesConcat(q, x' + [LF] + s);
    LinesOfClosed(x', s);
    LinesOfOpen([b], y);
    assert x' + [LF] == x + eol;
    assert Broken(x, eol, b, Head(y)) == [x + eol] + [[b] + Head(y)];
    assert q + x + y == q + (x + y);
    LinesConcat(q, x + y);
    LinesOfOpen(x, y);
  }

  lemma Rejoined(q: string, x: string, eol: string, b: char, y: string)
    requires Finished(q) && LF !in x && IsFold(x, eol, b)
    ensures ContentLines(q + x + eol + [b] + y) == ContentLines(q + x + y)
  {
    hide *;
    LinesOfBroken(q, x, eol, b, y);
    LogicalBefore(PhysicalLines(q), x, eol, b, Head(y), PhysicalLines(Tail(y)));
    ContentIs(q + x + eol + [b] + y);
    ContentIs(q + x + y);
  }

  lemma ContentIs(s: string)
    ensures ContentLines(s) == LogicalLines(PhysicalLines(s))
  {
  }

  /**
    A CRLF and a blank or tab vanish from any text in which they do not follow a line feed or
    stand at the start: the reader returns the same lines as without them.
   */
  lemma UnfoldsAnywhere(p: string, b: char, y: string)
    requires p != [] && p[|p| - 1] != '\n'
    requires b == ' ' || b == '\t'
    ensures ContentLines(p + "\r\n" + [b] + y) == ContentLines(p + y)
  {
    hide ContentLines;
    var q, x := LastLine(p);
    Rejoined(q, x, "\r\n", b, y);
  }

  /**
    So do an LF alone and a blank or tab, unless the octet before is a CR, or it is a blank or
    tab that is alone on its line.
   */
  lemma UnfoldsAfterLf(p: string, b: char, y: string)
    requires p != [] && p[|p| - 1] != '\n' && p[|p| - 1] != '\r'
    requires |p| == 1 || p[|p| - 2] == '\n' ==> p[|p| - 1] != ' ' && p[|p| - 1] != '\t'
    requires b == ' ' || b == '\t'
    ensures ContentLines(p + "\n" + [b] + y) == ContentLines(p + y)
  {
    hide ContentLines;
    var q, x := LastLine(p);
    if |x| == 1 {
      assert |p| > 1 ==> p[|p| - 2] == q[|q| - 1];
    }
    Rejoined(q, x, "\n", b, y);
  }

  /** Behind an empty line, a blank that is alone on its line keeps an LF from vanishing */
  lemma LoneBlankExample()
    ensures ContentLines("\r\n " + "\n" + " " + "x") == ["\n", " x"]
    ensures ContentLines("\r\n " + "x") == ["x"]
  {
    hide PhysicalLines, LogicalLines, Join;
    ExampleLines();
    JoinStep("\r\n", [" \n", " x"], "\n");
    assert [" \n", " x"][1..] == [" x"];
    JoinStop("\n", [" x"]);
    JoinStop(" x", []);
    LogicalStep(["\r\n", " \n", " x"]);
    assert ["\r\n", " \n", " x"][1..] == [" \n", " x"];
    LogicalStep([" x"]);
    assert [" x"][1..] == [];
    NoLogical();
    JoinStep("\r\n", [" x"], "x");
    JoinStop("x", []);
    LogicalStep(["\r\n", " x"]);
    assert ["\r\n", " x"][1..] == [" x"];
    assert Finish("\n") == "\n" && Finish(" x") == " x" && Finish("x") == "x";
  }

  lemma ExampleLines()
    ensures PhysicalLines("\r\n " + "\n" + " " + "x") == ["\r\n", " \n", " x"]
    ensures PhysicalLines("\r\n " + "x") == ["\r\n", " x"]
  {
    hide PhysicalLines, FirstLineEnd;
    LinesOfClosed("\r", " \n x");
    LinesOfClosed(" ", " x");
    LinesOfClosed("\r", " x");
    LinesOfOpen(" x", "");
    NoLines();
    assert "\r" + [LF] + " \n x" == "\r\n " + "\n" + " " + "x" && "\r" + [LF] == "\r\n";
    assert " " + [LF] + " x" == " \n x" && " " + [LF] == " \n";
    assert "\r" + [LF] + " x" == "\r\n " + "x";
    assert " x" + "" == " x" && " x" + Head("") == " x";
  }

  // ------------------------------------------------------------------------------------
  // A line break before anything else

  lemma {:induction false} JoinStops(raw: string, ls: seq<string>, ms: seq<string>)
    requires ms != [] && ms[0] != [] && ms[0][0] != ' ' && ms[0][0] != '\t'
    ensures Join(raw, ls + ms) == (Join(raw, ls).0, Join(raw, ls).1 + ms)
    decreases |ls|
  {
    hide DropEol;
    if ls == [] {
      assert ls + ms == ms;
    } else {
      assert (ls + ms)[0] == ls[0] && (ls + ms)[1..] == ls[1..] + ms;
      if Folds(raw, ls[0]) {
        JoinStops(DropEol(raw) + ls[0][1..], ls[1..], ms);
      }
    }
  }

  predicate AllFinished(ls: seq<string>) {
    forall i :: 0 <= i < |ls| ==> ls[i] != [] && ls[i][|ls[i]| - 1] == LF
  }

  lemma {:induction false} JoinFinished(raw: string, ls: seq<string>)
    requires AllFinished(ls) && raw != [] && raw[|raw| - 1] == LF
    ensures Join(raw, ls).0 != [] && AllFinished(Join(raw, ls).1)
    decreases |ls|
  {
    hide DropEol;
    if ls != [] && Folds(raw, ls[0]) {
      JoinFinished(DropEol(raw) + ls[0][1..], ls[1..]);
    }
  }

  lemma {:induction false} LogicalConcat(ls: seq<string>, ms: seq<string>)
    requires AllFinished(ls) && ms != [] && ms[0] != [] && ms[0][0] != ' ' && ms[0][0] != '\t'
    ensures LogicalLines(ls + ms) == LogicalLines(ls) + LogicalLines(ms)
    decreases |ls|
  {
    hide Join, Finish, LogicalLines;
    if ls == [] {
      assert ls + ms == ms;
      NoLogical();
      assert [] + LogicalLines(ms) == LogicalLines(ms);
    } else {
      assert (ls + ms)[0] == ls[0] && (ls + ms)[1..] == ls[1..] + ms;
      JoinStops(ls[0], ls[1..], ms);
      JoinFinished(ls[0], ls[1..]);
      LogicalStep(ls + ms);
      LogicalStep(ls);
      LogicalConcat(Join(ls[0], ls[1..]).1, ms);
      ConcatAssoc([Finish(Join(ls[0], ls[1..]).0)], LogicalLines(Join(ls[0], ls[1..]).1), LogicalLines(ms));
    }
  }

  lemma NoLogical()
    ensures LogicalLines([]) == []
  {
  }

  lemma {:induction false} LinesFinished(p: string)
    requires Finished(p)
    ensures AllFinished(PhysicalLines(p))
    decreases |p|
  {
    if p != [] {
      LinesFinished(p[FirstLineEnd(p)..]);
    }
  }

  /** A line break before any other octet ends a content line */
  lemma OtherwiseNewLine(p: string, c: char, y: string)
    requires p == [] || p[|p| - 1] == '\n'
    requires c != ' ' && c != '\t'
    ensures ContentLines(p + [c] + y) == ContentLines(p) + ContentLines([c] + y)
  {
    hide PhysicalLines, LogicalLines;
    var s := [c] + y;
    assert p + [c] + y == p + s;
    LinesConcat(p, s);
    LinesFinished(p);
    FirstOfLines(s);
    LogicalConcat(PhysicalLines(p), PhysicalLines(s));
  }

  lemma FirstOfLines(s: string)
    requires s != []
    ensures var ls := PhysicalLines(s); ls != [] && ls[0] != [] && ls[0][0] == s[0]
  {
  }

  /** So does the break of an empty line, whatever comes next, if it is an LF alone */
  lemma AfterEmptyLine(s: string)
    ensures ContentLines("\n" + s) == ["\n"] + ContentLines(s)
  {
    hide PhysicalLines, LogicalLines, Join;
    LinesOfClosed([], s);
    assert [] + [LF] + s == "\n" + s && [] + [LF] == "\n";
    var ls := PhysicalLines("\n" + s);
    assert ls[0] == "\n" && ls[1..] == PhysicalLines(s);
    JoinStop("\n", PhysicalLines(s));
    LogicalStep(ls);
  }

  // ------------------------------------------------------------------------------------
  // One line

  /** White space of the C locale other than a line feed */
  predicate IsPadding(w: string) {
    forall i :: 0 <= i < |w| ==> w[i] == ' ' || w[i] == '\t' || 11 <= w[i] as int <= 13
  }

  lemma {:induction false} StripPadding(x: string, w: string)
    requires x != [] && IsPadding(w)
    requires |x| == 1 || !(x[|x| - 1] == ' ' || 9 <= x[|x| - 1] as int <= 13)
    ensures StripKeepFirst(x + w) == x
    decreases |w|
  {
    var s := x + w;
    if w == [] {
      assert s == x;
    } else {
      assert s[..|s| - 1] == x + w[..|w| - 1] && s[|s| - 1] == w[|w| - 1];
      StripPadding(x, w[..|w| - 1]);
    }
  }

  lemma OneLineOnly(raw: string)
    requires raw != [] && LF !in raw[..|raw| - 1]
    ensures ContentLines(raw) == [Finish(raw)]
  {
    hide Finish;
    FirstLineEndUnique(raw, |raw|);
    assert raw[..|raw|] == raw && raw[|raw|..] == [];
    assert PhysicalLines([]) == [];
    assert PhysicalLines(raw) == [raw];
    LogicalStep([raw]);
    assert [raw][1..] == [];
    NoLogical();
  }

  lemma FinishPadded(x: string, u: string)
    requires x != [] && x != "\r" && IsPadding(u)
    requires |x| == 1 || !(x[|x| - 1] == ' ' || 9 <= x[|x| - 1] as int <= 13)
    ensures Finish(x + u + "\n") == x
  {
    hide StripKeepFirst, IsPadding;
    var raw := x + u + "\n";
    assert raw[..|raw| - 1] == x + u;
    if u != [] && u[|u| - 1] == CR {
      assert (x + u)[..|x + u| - 1] == x + u[..|u| - 1];
      LessPadding(u);
      StripPadding(x, u[..|u| - 1]);
    } else {
      assert (x + u)[|x + u| - 1] == if u == [] then x[|x| - 1] else u[|u| - 1];
      StripPadding(x, u);
    }
  }

  lemma LessPadding(w: string)
    requires IsPadding(w)
    ensures IsPadding(w + "\r") && (w != [] ==> IsPadding(w[..|w| - 1])) && LF !in w
  {
  }

  /** Text without a line feed is one content line, without white space at its end */
  lemma LineWithoutPadding(x: string, w: string, eol: string)
    requires x != [] && x != "\r" && LF !in x && IsPadding(w) && (eol == "" || eol == "\n" || eol == "\r\n")
    requires |x| == 1 || !(x[|x| - 1] == ' ' || 9 <= x[|x| - 1] as int <= 13)
    ensures ContentLines(x + w + eol) == [x]
  {
    hide *;
    LessPadding(w);
    var raw := x + w + eol;
    if eol == "" {
      assert raw == x + w && raw[..|raw| - 1] == (x + w)[..|x + w| - 1];
      OneLineOnly(raw);
      StripPadding(x, w);
      FinishOpen(raw);
    } else {
      var u := if eol == "\r\n" then w + "\r" else w;
      LessPadding(u);
      assert raw == x + u + "\n" && raw[..|raw| - 1] == x + u;
      OneLineOnly(raw);
      FinishPadded(x, u);
    }
  }

  lemma FinishOpen(raw: string)
    requires LF !in raw
    ensures Finish(raw) == StripKeepFirst(raw)
  {
  }

  // ------------------------------------------------------------------------------------
  // Lines that end in a carriage return alone

  lemma DeliveredStep(s: string)
    requires s != []
    ensures Delivered(s) == Chunk(s) + Delivered(s[|Chunk(s)|..])
  {
  }

  /** As long as there are line feeds to come, text is delivered as it is */
  lemma ChunkBeforeLf(s: string)
    requires LF in s
    ensures var n := |Chunk(s)|; Chunk(s) == s[..n] && n <= StrChr(s, LF) + 1
  {
  }

  lemma {:induction false} DeliveredUpToLf(q: string, x: string)
    requires Finished(q)
    ensures Delivered(q + x) == q + Delivered(x)
    decreases |q|
  {
    hide Chunk, Delivered;
    var s := q + x;
    if q == [] {
      assert s == x && [] + Delivered(x) == Delivered(x);
    } else {
      assert LF in q by { assert q[|q| - 1] == LF; }
      FirstIn(q, x);
      ChunkBeforeLf(s);
      DeliveredStep(s);
      var n := |Chunk(s)|;
      assert n <= |q| && s[..n] == q[..n] && s[n..] == q[n..] + x;
      assert q[n..] != [] ==> q[n..][|q[n..]| - 1] == q[|q| - 1];
      DeliveredUpToLf(q[n..], x);
      assert q == q[..n] + q[n..];
      ConcatAssoc(q[..n], q[n..], Delivered(x));
    }
  }

  lemma FirstIn(q: string, x: string)
    requires LF in q
    ensures StrChr(q + x, LF) == StrChr(q, LF) < |q|
  {
    var k := StrChr(q, LF);
    assert (q + x)[..k] == q[..k] && (q + x)[k] == LF;
    FirstIs(q + x, LF, k);
  }

  /** Every CR turned into an LF */
  function CrToLf(s: string): (r: string)
    ensures |r| == |s| && forall i :: 0 <= i < |s| ==> r[i] == if s[i] == '\r' then '\n' else s[i]
  {
    if s == [] then [] else [if s[0] == '\r' then '\n' else s[0]] + CrToLf(s[1..])
  }

  lemma CrToLfConcat(a: string, b: string)
    ensures CrToLf(a + b) == CrToLf(a) + CrToLf(b)
  {
    hide CrToLf;
    var l, r := CrToLf(a + b), CrToLf(a) + CrToLf(b);
    forall i | 0 <= i < |l| ensures l[i] == r[i] {
      assert (a + b)[i] == if i < |a| then a[i] else b[i - |a|];
    }
  }

  /** No line that ends in a CR has more than 78 octets before it */
  predicate ShortLines(s: string)
    decreases |s|
  {
    CR !in s || (StrChr(s, CR) <= 78 && ShortLines(s[StrChr(s, CR) + 1..]))
  }

  lemma ChunkOfCr(s: string)
    requires LF !in s && CR in s
    ensures var k := StrChr(s, CR);
            Chunk(s) == if k <= 78 then s[..k] + "\n" else s[..78] + "\n"
  {
    hide StrChr;
    var k := StrChr(s, CR);
    NotThere(s);
    assert k < |s| by { assert s[..|s|] == s; }
    if k <= 78 {
      assert s[..k + 1 - 1] == s[..k];
    }
  }

  lemma NotThere(s: string)
    requires LF !in s
    ensures StrChr(s, LF) == |s|
  {
  }

  /**
    Text with CRs alone as line ends is delivered as if they were LFs if and only if its lines
    are short enough for the buffer; an octet of a longer line is overwritten by a line break.
   */
  lemma {:induction false} CrDelivered(s: string)
    requires LF !in s
    ensures Delivered(s) == CrToLf(s) <==> ShortLines(s)
    decreases |s|
  {
    hide Chunk, Delivered, CrToLf;
    if CR !in s {
      NoCrDelivered(s);
    } else {
      var k := StrChr(s, CR);
      DeliveredStep(s);
      ChunkOfCr(s);
      if k <= 78 {
        var a, b := s[..k + 1], s[k + 1..];
        assert s == a + b && a == s[..k] + "\r";
        CrDelivered(b);
        CrToLfConcat(a, b);
        CrOnce(s[..k]);
        SamePrefix(s[..k] + "\n", Delivered(b), CrToLf(b));
      } else {
        assert Delivered(s)[78] == LF;
        assert s[78] in s[..k] && CrToLf(s)[78] == s[78];
      }
    }
  }

  lemma CrOnce(x: string)
    requires CR !in x
    ensures CrToLf(x + "\r") == x + "\n" && CrToLf(x) == x
  {
  }

  lemma NoCrDelivered(s: string)
    requires LF !in s && CR !in s
    ensures Delivered(s) == s == CrToLf(s)
  {
    hide Delivered;
    DeliveredIsInput(s);
    CrOnce(s);
  }

  /** The line feed that takes the place of the 79th octet of such a line */
  lemma LongLineLosesOctet(x: string, y: string)
    requires LF !in x && CR !in x && LF !in y && |x| > 78
    ensures Delivered(x + "\r" + y) == x[..78] + "\n" + Delivered(x[79..] + "\r" + y)
  {
    hide Delivered, Chunk, StrChr;
    var s := x + "\r" + y;
    assert s[|x|] == CR && s[..|x|] == x;
    FirstIs(s, CR, |x|);
    ChunkOfCr(s);
    DeliveredStep(s);
    LongParts(x, y);
  }

  lemma LongParts(x: string, y: string)
    requires |x| > 78
    ensures var s := x + "\r" + y; s[..78] == x[..78] && s[79..] == x[79..] + "\r" + y
  {
  }

  lemma FirstIs(s: string, c: char, k: nat)
    requires k < |s| && c !in s[..k] && s[k] == c
    ensures StrChr(s, c) == k
  {
    var m := StrChr(s, c);
    assert c in s[..k + 1] && c !in s[..m];
    assert m <= k ==> s[m] in s[..m + 1];
  }

  // ------------------------------------------------------------------------------------
  // The byte order mark

  /** A byte order mark at the start of the input is skipped, and nothing else ever is */
  lemma MarkSkippedOnce(t: string)
    ensures SkipBom([0xEF as char, 0xBB as char, 0xBF as char] + t) == t
    ensures !([0xEF as char, 0xBB as char, 0xBF as char] <= t) ==> SkipBom(t) == t
  {
    assert ([0xEF as char, 0xBB as char, 0xBF as char] + t)[3..] == t;
  }
}
