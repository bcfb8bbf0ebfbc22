/** The physical lines of printed components: none is longer than 75 octets. */
module PrintedLines {
  import opened CText
  import opened ComponentKinds
  import opened LineReader
  import opened LineFolding
  import opened ParserStack
  import opened RoundTrip
  import Unfolding

  /** Whole lines, each of at most 75 octets, line breaks not counted */
  predicate InShortLines(s: string) {
    Unfolding.Finished(s) && AllShort(PhysicalLines(s))
  }

  lemma ShortConcat(a: string, b: string)
    requires InShortLines(a) && InShortLines(b)
    ensures InShortLines(a + b)
  {
    hide PhysicalLines, WithoutBreak;
    Unfolding.LinesConcat(a, b);
    assert b != [] ==> (a + b)[|a + b| - 1] == b[|b| - 1];
    assert b == [] ==> a + b == a;
  }

  lemma ShortText(s: string)
    requires s != [] && |s| <= 75 && s[|s| - 1] == LF
    ensures InShortLines(s)
  {
    hide PhysicalLines, AllShort;
    ShortAlone(s);
  }

  lemma {:induction false} FoldEnds(t: string)
    requires t != [] && t[|t| - 1] == LF
    ensures Fold(t) != [] && Fold(t)[|Fold(t)| - 1] == LF
    decreases |t|
  {
    hide Fold, NextStart;
    FoldCuts(t);
    if |t| >= 75 {
      FoldEnds(t[NextStart(t)..]);
    }
  }

  lemma ShortFold(t: string)
    requires t != [] && t[|t| - 1] == LF
    ensures InShortLines(Fold(t))
  {
    hide Fold, PhysicalLines, AllShort, Flatten;
    FoldEnds(t);
    FoldLayout(t);
  }

  lemma {:induction false} ShortEntries(es: seq<Entry>)
    requires AllData(es)
    ensures InShortLines(EntriesText(es))
  {
    hide InShortLines, Fold, EntryLine;
    if es == [] {
      NothingShort();
    } else {
      ShortEntries(es[1..]);
      ShortFold(EntryLine(es[0]) + "\r\n");
      ShortConcat(EntryText(es[0]), EntriesText(es[1..]));
    }
  }

  lemma NothingShort()
    ensures InShortLines([])
  {
  }

  lemma ShortBounds(kind: Kind)
    ensures InShortLines("BEGIN:" + Name(kind) + "\r\n") && InShortLines("END:" + Name(kind) + "\r\n")
  {
    hide InShortLines, Name;
    NameIsShort(kind);
    ShortText("BEGIN:" + Name(kind) + "\r\n");
    ShortText("END:" + Name(kind) + "\r\n");
  }

  lemma NameIsShort(kind: Kind)
    ensures |Name(kind)| <= 20
  {
  }

  lemma ShortNode(kind: Kind, entries: string, children: string)
    requires InShortLines(entries) && InShortLines(children)
    ensures InShortLines(NodeText(kind, entries, children))
  {
    hide InShortLines, Name, NodeText;
    ShortBounds(kind);
    var begin, end := "BEGIN:" + Name(kind) + "\r\n", "END:" + Name(kind) + "\r\n";
    ShortConcat(begin, entries);
    ShortConcat(begin + entries, children);
    ShortConcat(begin + entries + children, end);
    NodeTextIs(kind, entries, children);
    assert "" + "BEGIN:" + Name(kind) + "\r\n" + entries + children + "END:" + Name(kind) + "\r\n" ==
           begin + entries + children + end;
  }

  /** Whatever the components hold, no physical line of the printed text is too long */
  lemma {:induction false} PrintedShort(ts: seq<Node>)
    requires Plain(ts)
    ensures InShortLines(Texts(ts))
    decreases ts
  {
    hide InShortLines, NodeText, EntriesText;
    if ts == [] {
      NothingShort();
    } else {
      ShortEntries(ts[0].entries);
      PrintedShort(ts[0].children);
      PrintedShort(ts[1..]);
      ShortNode(ts[0].kind, EntriesText(ts[0].entries), Texts(ts[0].children));
      ShortConcat(NodeText(ts[0].kind, EntriesText(ts[0].entries), Texts(ts[0].children)), Texts(ts[1..]));
    }
  }
}
