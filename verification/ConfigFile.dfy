/** The edit on the text of the file (config_loader.py): the method with its loops, and when the
    text that is written reads back as the edited lines. Lines end at `\n`.  */
module ConfigFile {
  import opened Wrappers
  import opened Text
  import opened ConfigLines
  import opened ConfigEditor

  function Join(lines: seq<string>): string {
    if lines == [] then "" else Join(lines[..|lines| - 1]) + lines[|lines| - 1]
  }

  /** `text.splitlines(keepends=True)`. */
  function Split(text: string): seq<string>
    decreases |text|
  {
    var i := Find(text, '\n');
    if text == "" then []
    else if i == |text| then [text]
    else [text[..i + 1]] + Split(text[i + 1..])
  }

  /** Not empty, with a line feed at most at the end. */
  predicate Piece(line: string) { line != "" && '\n' !in line[..|line| - 1] }

  predicate Ended(line: string) { line != "" && line[|line| - 1] == '\n' }

  predicate Pieces(lines: seq<string>) { forall i | 0 <= i < |lines| :: Piece(lines[i]) }

  /** Every line but possibly the last is ended. */
  predicate EndedInside(lines: seq<string>) { forall i | 0 <= i < |lines| - 1 :: Ended(lines[i]) }

  lemma JoinSnoc(lines: seq<string>, line: string)
    ensures Join(lines + [line]) == Join(lines) + line
  {
    assert (lines + [line])[..|lines|] == lines;
  }

  lemma {:induction false} JoinFrom(first: string, rest: seq<string>)
    ensures Join([first] + rest) == first + Join(rest)
  {
    if rest == [] {
      JoinSnoc([], first);
      assert [] + [first] == [first] + rest;
    } else {
      var front, last := rest[..|rest| - 1], rest[|rest| - 1];
      JoinFrom(first, front);
      JoinSnoc([first] + front, last);
      JoinSnoc(front, last);
      assert rest == front + [last];
      assert [first] + rest == ([first] + front) + [last];
    }
  }

  lemma JoinFront(lines: seq<string>)
    requires lines != []
    ensures Join(lines) == lines[0] + Join(lines[1..])
  {
    JoinFrom(lines[0], lines[1..]);
    assert lines == [lines[0]] + lines[1..];
  }

  lemma SplitFirst(line: string, rest: string)
    requires Piece(line) && Ended(line)
    ensures Split(line + rest) == [line] + Split(rest)
  {
    var n := |line| - 1;
    assert line + rest == line[..n] + ("\n" + rest);
    FindAfter(line[..n], "\n" + rest, '\n');
    assert (line + rest)[..n + 1] == line && (line + rest)[n + 1..] == rest;
  }

  lemma SplitOpen(line: string, rest: string)
    requires Piece(line) && !Ended(line) && rest != ""
    ensures Split(line + rest) != [] && |Split(line + rest)[0]| > |line|
  {
    assert '\n' !in line by {
      assert line == line[..|line| - 1] + [line[|line| - 1]];
    }
    FindAfter(line, rest, '\n');
  }

  lemma {:induction false} JoinNotEmpty(lines: seq<string>)
    requires lines != [] && Pieces(lines)
    ensures Join(lines) != ""
  {
    assert Piece(lines[|lines| - 1]);
  }

  /** Joined lines read back as they were exactly when no line but the last lacks its end. */
  lemma {:induction false} ReadsBackIff(lines: seq<string>)
    requires Pieces(lines)
    ensures Split(Join(lines)) == lines <==> EndedInside(lines)
  {
    if |lines| == 1 {
      OneLine(lines[0]);
      assert lines[..0] == [];
      assert Join(lines) == lines[0];
    } else if |lines| > 1 {
      var rest := lines[1..];
      JoinFront(lines);
      JoinNotEmpty(rest);
      ReadsBackIff(rest);
      assert lines == [lines[0]] + rest;
      if Ended(lines[0]) {
        SplitFirst(lines[0], Join(rest));
        InsideFront(lines);
      } else {
        SplitOpen(lines[0], Join(rest));
      }
    }
  }

  lemma InsideFront(lines: seq<string>)
    requires |lines| > 1 && Ended(lines[0])
    ensures EndedInside(lines) <==> EndedInside(lines[1..])
  {
    if EndedInside(lines[1..]) {
      forall i | 0 <= i < |lines| - 1 ensures Ended(lines[i]) {
        if i > 0 { assert lines[i] == lines[1..][i - 1]; }
      }
    }
  }

  lemma OneLine(line: string)
    requires Piece(line)
    ensures Split(line) == [line]
  {
    assert line == line[..|line| - 1] + [line[|line| - 1]];
    FindAfter(line[..|line| - 1], [line[|line| - 1]], '\n');
    if Ended(line) {
      SplitFirst(line, "");
      assert line + "" == line;
    }
  }

  // ---- the lines of an edit -----------------------------------------------------------------------

  predicate Whole(line: string) { Piece(line) && Ended(line) }

  predicate AllWhole(lines: seq<string>) { forall i | 0 <= i < |lines| :: Whole(lines[i]) }

  predicate Inner(s: string) { '\n' !in s }

  lemma EndOf(s: string, e: string)
    requires Inner(s) && IsEol(e)
    ensures Whole(s + e)
  {
    var t := s + e;
    assert t[..|t| - 1] == if e == "\n" then s else s + "\r";
  }

  lemma NoBreaksInner(s: string)
    requires NoBreaks(s)
    ensures Inner(s)
  {
    forall i | 0 <= i < |s| ensures s[i] != '\n' { assert !IsBreak(s[i]); }
  }

  lemma IdentifierInner(s: string)
    requires Identifier(s)
    ensures Inner(s)
  {
    forall i | 0 <= i < |s| ensures s[i] != '\n' { assert InWord(s[i]); }
  }

  lemma InsertedWhole(u: Update)
    requires Identifier(u.key) && NoBreaks(u.scalar)
    ensures Whole(Inserted(u.key, u.scalar))
  {
    IdentifierInner(u.key);
    NoBreaksInner(u.scalar);
    EndOf("  " + u.key + ": " + u.scalar, "\n");
  }

  lemma HeaderWhole(s: string)
    requires Identifier(s)
    ensures Whole(Header(s)) && Whole("\n")
  {
    IdentifierInner(s);
    EndOf(s + ":", "\n");
    assert Header(s) == s + ":" + "\n";
    EndOf("", "\n");
  }

  lemma CommentInner(line: string)
    requires Piece(line)
    ensures Inner(Comment(line))
  {
    var h := Find(line, '#');
    if h < |line| {
      var t := TrimBreaks(line[h..]);
      TrimBreaksEnd(line[h..]);
      forall i | 0 <= i < |t| ensures t[i] != '\n' {
        assert t[i] == line[h..][i] == line[h + i];
        if h + i < |line| - 1 { assert line[..|line| - 1][h + i] == line[h + i]; }
      }
    }
  }

  lemma IndentInner(line: string)
    requires Piece(line) && KeyOf(line).Some?
    ensures Inner(KeyOf(line).value.0)
  {
    var i := BlankLen(line);
    assert i < |line|;
    forall j | 0 <= j < i ensures line[j] != '\n' {
      assert line[..|line| - 1][j] == line[j];
    }
  }

  lemma RewrittenWhole(line: string, k: string, v: string)
    requires Piece(line) && KeyOf(line).Some? && KeyOf(line).value.1 == k && NoBreaks(v)
    ensures Whole(Rewritten(line, k, v))
  {
    KeyShape(line);
    IdentifierInner(k);
    NoBreaksInner(v);
    CommentInner(line);
    IndentInner(line);
    EolIsEol(line);
    EndOf(KeyOf(line).value.0 + k + ": " + v + Comment(line), Eol(line));
  }

  lemma {:induction false} NewLinesWhole(us: seq<Update>, pending: set<Pair>, s: string)
    requires WellFormed(us)
    ensures AllWhole(NewLines(us, pending, s))
  {
    if us != [] {
      NewLinesWhole(us[..|us| - 1], pending, s);
      InsertedWhole(us[|us| - 1]);
    }
  }

  lemma FlushWhole(us: seq<Update>, st: State)
    requires WellFormed(us) && AllWhole(st.out)
    ensures AllWhole(Flush(us, st).out)
  {
    if st.current.Some? { NewLinesWhole(us, st.pending, st.current.value); }
  }

  lemma {:induction false} AppendedWhole(us: seq<Update>, pending: set<Pair>, out: seq<string>, sections: seq<string>)
    requires WellFormed(us) && AllWhole(out) && Names(sections)
    ensures AllWhole(Appended(us, pending, out, sections))
  {
    if sections != [] {
      var n := |sections| - 1;
      AppendedWhole(us, pending, out, sections[..n]);
      HeaderWhole(sections[n]);
      NewLinesWhole(us, pending, sections[n]);
    }
  }

  /** One more line: whatever is added before it is whole, and it stays or is rewritten whole. */
  lemma FeedWhole(us: seq<Update>, st: State, line: string)
    requires WellFormed(us) && AllWhole(st.out) && Piece(line)
    ensures var r := Feed(us, st, line).out;
      r != [] && AllWhole(r[..|r| - 1]) && (r[|r| - 1] == line || Whole(r[|r| - 1]))
  {
    var r := Feed(us, st, line).out;
    if SectionOf(line).Some? {
      FlushWhole(us, st);
      assert r[..|r| - 1] == Flush(us, st).out;
    } else {
      assert r[..|r| - 1] == st.out;
      var k := Named(line);
      if st.current.Some? && k.Some? && (st.current.value, k.value) in st.pending * Wanted(us).Keys {
        var p := (st.current.value, k.value);
        WantedIsUpdate(us, p);
        RewrittenWhole(line, k.value, Wanted(us)[p]);
      }
    }
  }

  lemma {:induction false} FedWhole(us: seq<Update>, lines: seq<string>)
    requires WellFormed(us) && AllWhole(lines)
    ensures AllWhole(Fed(us, lines).out)
  {
    if lines != [] {
      var n := |lines| - 1;
      FedWhole(us, lines[..n]);
      FeedWhole(us, Fed(us, lines[..n]), lines[n]);
      var r := Fed(us, lines).out;
      assert r == r[..|r| - 1] + [r[|r| - 1]];
    }
  }

  lemma WholeReadsBack(lines: seq<string>)
    requires AllWhole(lines)
    ensures Split(Join(lines)) == lines
  {
    ReadsBackIff(lines);
  }

  lemma AddedIsWhole(us: seq<Update>, lines: seq<string>)
    requires WellFormed(us) && AllWhole(Fed(us, lines).out)
    ensures AllWhole(Edited(us, lines))
  {
    var f := Closed(us, lines);
    FlushWhole(us, Fed(us, lines));
    NewNames(us, f.pending);
    AppendedWhole(us, f.pending, f.out, NewSections(us, f.pending));
  }

  /** A file whose lines are all ended: the written text reads back as the edited lines, so all
      laws of the edit are laws of the file. */
  lemma EditReadsBack(us: seq<Update>, lines: seq<string>)
    requires WellFormed(us) && AllWhole(lines)
    ensures Split(Join(Edited(us, lines))) == Edited(us, lines)
  {
    FedWhole(us, lines);
    AddedIsWhole(us, lines);
    WholeReadsBack(Edited(us, lines));
  }

  lemma {:induction false} AppendedExtends(us: seq<Update>, pending: set<Pair>, out: seq<string>, sections: seq<string>)
    ensures out <= Appended(us, pending, out, sections)
  {
    if sections != [] { AppendedExtends(us, pending, out, sections[..|sections| - 1]); }
  }

  /** After the last line the edit only adds lines. */
  lemma EditExtends(us: seq<Update>, lines: seq<string>)
    ensures Fed(us, lines).out <= Edited(us, lines)
  {
    var f := Closed(us, lines);
    AppendedExtends(us, f.pending, f.out, NewSections(us, f.pending));
  }

  lemma {:induction false} AppendedPieces(us: seq<Update>, pending: set<Pair>, out: seq<string>, sections: seq<string>)
    requires WellFormed(us) && Pieces(out) && Names(sections)
    ensures Pieces(Appended(us, pending, out, sections))
  {
    if sections != [] {
      var n := |sections| - 1;
      AppendedPieces(us, pending, out, sections[..n]);
      HeaderWhole(sections[n]);
      NewLinesWhole(us, pending, sections[n]);
    }
  }

  lemma PiecesSnoc(out: seq<string>)
    requires out != [] && AllWhole(out[..|out| - 1]) && Piece(out[|out| - 1])
    ensures Pieces(out)
  {
    forall i | 0 <= i < |out| ensures Piece(out[i]) {
      if i < |out| - 1 { assert out[..|out| - 1][i] == out[i]; }
    }
  }

  lemma FlushPieces(us: seq<Update>, st: State)
    requires WellFormed(us) && Pieces(st.out)
    ensures Pieces(Flush(us, st).out)
  {
    if st.current.Some? { NewLinesWhole(us, st.pending, st.current.value); }
  }

  lemma EditedPieces(us: seq<Update>, lines: seq<string>, line: string)
    requires WellFormed(us) && AllWhole(lines) && Piece(line)
    ensures Pieces(Edited(us, lines + [line]))
  {
    var all := lines + [line];
    var f := Closed(us, all);
    FedNext(us, lines, line);
    FedWhole(us, lines);
    FeedWhole(us, Fed(us, lines), line);
    PiecesSnoc(Fed(us, all).out);
    FlushPieces(us, Fed(us, all));
    NewNames(us, f.pending);
    AppendedPieces(us, f.pending, f.out, NewSections(us, f.pending));
  }

  // ---- a last line without its end ------------------------------------------------------------------

  /** This line is the first of an updated key, so it is rewritten. */
  ghost predicate IsFirstUpdated(us: seq<Update>, before: seq<string>, line: string) {
    IsUpdated(us, before, line) && LinesOf(before, SectionAt(before).value, Named(line).value) == []
  }

  /** The update has no line to rewrite, and its section is the last one of the file or is not in
      the file: its line is added at the end. */
  ghost predicate IsAdded(lines: seq<string>, p: Pair) {
    LinesOf(lines, p.0, p.1) == [] && (SectionAt(lines) == Some(p.0) || p.0 !in Headers(lines))
  }

  ghost predicate NothingAdded(us: seq<Update>, lines: seq<string>) {
    forall p | p in Wanted(us) :: !IsAdded(lines, p)
  }

  lemma PendingIsAdded(us: seq<Update>, lines: seq<string>, p: Pair)
    requires WellFormed(us) && UniqueSections(lines) && p in Wanted(us)
    ensures p in Fed(us, lines).pending <==> IsAdded(lines, p)
  {
    FedTracks(us, lines, p.0, p.1);
  }

  lemma {:induction false} SomeNewLine(us: seq<Update>, pending: set<Pair>, s: string, i: nat)
    requires i < |us| && us[i].section == s && (s, us[i].key) in pending
    ensures NewLines(us, pending, s) != []
  {
    var n := |us| - 1;
    if i < n {
      assert us[..n][i] == us[i];
      SomeNewLine(us[..n], pending, s, i);
    }
  }

  lemma {:induction false} AppendedGrows(us: seq<Update>, pending: set<Pair>, out: seq<string>, sections: seq<string>)
    ensures |Appended(us, pending, out, sections)| >= |out| + |sections|
  {
    if sections != [] { AppendedGrows(us, pending, out, sections[..|sections| - 1]); }
  }

  lemma PendingAddsLines(us: seq<Update>, lines: seq<string>, p: Pair)
    requires p in Wanted(us) && p in Fed(us, lines).pending
    ensures |Edited(us, lines)| > |Fed(us, lines).out|
  {
    var st, f := Fed(us, lines), Closed(us, lines);
    WantedIsUpdate(us, p);
    var i :| 0 <= i < |us| && us[i] == Update(p.0, p.1, Wanted(us)[p]);
    AppendedGrows(us, f.pending, f.out, NewSections(us, f.pending));
    if st.current == Some(p.0) {
      SomeNewLine(us, st.pending, p.0, i);
    } else {
      assert p in f.pending;
      PendingHasSection(us, f.pending, p);
    }
  }

  /** When the edit puts nothing after the last line of the file. */
  lemma NothingAfterIff(us: seq<Update>, lines: seq<string>)
    requires WellFormed(us) && UniqueSections(lines)
    ensures Edited(us, lines) == Fed(us, lines).out <==> NothingAdded(us, lines)
    ensures |Edited(us, lines)| > |Fed(us, lines).out| <==> !NothingAdded(us, lines)
  {
    FedPending(us, lines);
    forall p | p in Wanted(us) ensures p in Fed(us, lines).pending <==> IsAdded(lines, p) {
      PendingIsAdded(us, lines, p);
    }
    if NothingAdded(us, lines) {
      NothingPending(us, lines);
    } else {
      var p :| p in Wanted(us) && IsAdded(lines, p);
      PendingAddsLines(us, lines, p);
    }
  }

  lemma FirstIsPending(us: seq<Update>, lines: seq<string>, line: string)
    requires WellFormed(us) && UniqueSections(lines)
    ensures var st := Fed(us, lines);
      && st.current == SectionAt(lines)
      && (IsFirstUpdated(us, lines, line) <==>
            && st.current.Some? && Named(line).Some?
            && (st.current.value, Named(line).value) in st.pending * Wanted(us).Keys)
  {
    FedFollows(us, lines);
    if IsUpdated(us, lines, line) { PendingIsAdded(us, lines, (SectionAt(lines).value, Named(line).value)); }
  }

  lemma FeedFirst(us: seq<Update>, st: State, line: string)
    requires WellFormed(us) && Piece(line) && st.current.Some? && Named(line).Some?
    requires (st.current.value, Named(line).value) in st.pending * Wanted(us).Keys
    ensures var r := Feed(us, st, line).out; r != [] && Whole(r[|r| - 1])
  {
    var p := (st.current.value, Named(line).value);
    WantedIsUpdate(us, p);
    RewrittenWhole(line, p.1, Wanted(us)[p]);
  }

  lemma FeedOther(us: seq<Update>, st: State, line: string)
    requires !(st.current.Some? && Named(line).Some?
               && (st.current.value, Named(line).value) in st.pending * Wanted(us).Keys)
    ensures var r := Feed(us, st, line).out; r != [] && r[|r| - 1] == line
  {
  }

  /** What becomes of the last line: rewritten, with its end, or kept. */
  lemma LastLine(us: seq<Update>, lines: seq<string>, last: string)
    requires WellFormed(us) && UniqueSections(lines + [last]) && AllWhole(lines) && Piece(last)
    ensures var r := Fed(us, lines + [last]).out;
      && r != [] && AllWhole(r[..|r| - 1])
      && if IsFirstUpdated(us, lines, last) then Whole(r[|r| - 1]) else r[|r| - 1] == last
  {
    var st := Fed(us, lines);
    FedNext(us, lines, last);
    UniquePrefix(lines, last);
    FedWhole(us, lines);
    FeedWhole(us, st, last);
    FirstIsPending(us, lines, last);
    if IsFirstUpdated(us, lines, last) { FeedFirst(us, st, last); } else { FeedOther(us, st, last); }
  }

  /** A line kept open glues to itself whatever comes after it. */
  lemma OpenLineGlues(out: seq<string>, n: nat)
    requires Pieces(out) && n < |out| - 1 && !Ended(out[n])
    ensures Split(Join(out)) != out
  {
    ReadsBackIff(out);
  }

  lemma KeptLastReadsBack(out: seq<string>)
    requires out != [] && AllWhole(out[..|out| - 1]) && Piece(out[|out| - 1])
    ensures Split(Join(out)) == out
  {
    PiecesSnoc(out);
    forall i | 0 <= i < |out| - 1 ensures Ended(out[i]) {
      assert out[..|out| - 1][i] == out[i];
    }
    ReadsBackIff(out);
  }

  /** A file whose last line lacks its end: the written text reads back as the edited lines exactly
      when that line is the first of an updated key, and so is rewritten with its end, or when no
      update adds anything after it. */
  lemma OpenLastLineIff(us: seq<Update>, lines: seq<string>, last: string)
    requires WellFormed(us) && UniqueSections(lines + [last]) && AllWhole(lines) && Piece(last) && !Ended(last)
    ensures Split(Join(Edited(us, lines + [last]))) == Edited(us, lines + [last])
       <==> IsFirstUpdated(us, lines, last) || NothingAdded(us, lines + [last])
  {
    var all := lines + [last];
    var fed, out := Fed(us, all).out, Edited(us, all);
    LastLine(us, lines, last);
    NothingAfterIff(us, all);
    if IsFirstUpdated(us, lines, last) {
      assert fed == fed[..|fed| - 1] + [fed[|fed| - 1]];
      AddedIsWhole(us, all);
      WholeReadsBack(out);
    } else if NothingAdded(us, all) {
      KeptLastReadsBack(out);
    } else {
      EditExtends(us, all);
      EditedPieces(us, lines, last);
      OpenLineGlues(out, |fed| - 1);
    }
  }

  // ---- the method -----------------------------------------------------------------------------------

  /** `_flush_section_keys`. */
  method FlushSectionKeys(us: seq<Update>, out0: seq<string>, pending0: set<Pair>, s: string)
    returns (out: seq<string>, pending: set<Pair>)
    ensures out == out0 + NewLines(us, pending0, s) && pending == OtherSections(pending0, s)
  {
    out := out0;
    for i := 0 to |us|
      invariant out == out0 + NewLines(us[..i], pending0, s)
    {
      assert us[..i + 1][..i] == us[..i];
      if us[i].section == s && (s, us[i].key) in pending0 {
        out := out + [Inserted(us[i].key, us[i].scalar)];
      }
    }
    assert us[..|us|] == us;
    pending := OtherSections(pending0, s);
  }

  method FeedLine(us: seq<Update>, st: State, line: string) returns (r: State)
    ensures r == Feed(us, st, line)
  {
    var out, current, pending := st.out, st.current, st.pending;
    if SectionOf(line).Some? {
      if current.Some? { out, pending := FlushSectionKeys(us, out, pending, current.value); }
      return State(out + [line], SectionOf(line), pending);
    }
    if Named(line).Some? && current.Some? {
      var p := (current.value, Named(line).value);
      if p in pending && p in Wanted(us) {
        return State(out + [Rewritten(line, p.1, Wanted(us)[p])], current, pending - {p});
      }
    }
    r := State(out + [line], current, pending);
  }

  /** The loops of `update_config_values`. */
  method UpdateLines(us: seq<Update>, lines: seq<string>) returns (out: seq<string>)
    ensures out == Edited(us, lines)
  {
    var st := State([], None, Wanted(us).Keys);
    for i := 0 to |lines|
      invariant st == Fed(us, lines[..i])
    {
      assert lines[..i + 1][..i] == lines[..i];
      st := FeedLine(us, st, lines[i]);
    }
    assert lines[..|lines|] == lines;
    out := st.out;
    var pending := st.pending;
    if st.current.Some? { out, pending := FlushSectionKeys(us, out, pending, st.current.value); }
    out := AppendSections(us, out, pending);
  }

  method AppendSections(us: seq<Update>, out0: seq<string>, pending: set<Pair>) returns (out: seq<string>)
    ensures out == Appended(us, pending, out0, NewSections(us, pending))
  {
    out := out0;
    var sections := NewSections(us, pending);
    for i := 0 to |sections|
      invariant out == Appended(us, pending, out0, sections[..i])
    {
      assert sections[..i + 1][..i] == sections[..i];
      if out != [] && Strip(out[|out| - 1]) != "" { out := out + ["\n"]; }
      out := out + [Header(sections[i])];
      var rest;
      out, rest := FlushSectionKeys(us, out, pending, sections[i]);
    }
    assert sections[..|sections|] == sections;
  }

  /** `update_config_values` on the text of the file. */
  method UpdateConfigValues(us: seq<Update>, text: string) returns (written: string)
    ensures |us| == 0 ==> written == text
    ensures |us| > 0 ==> written == Join(Edited(us, Split(text)))
  {
    if |us| == 0 { return text; }
    var lines := UpdateLines(us, Split(text));
    written := Join(lines);
  }
}
