/** `update_config_values` of config_loader.py: one pass over the lines of a two-level file that
    must act as a map update on (section, key).  */
module ConfigEditor {
  import opened Wrappers
  import opened Ordering
  import opened Text
  import opened ConfigLines

  datatype Update = Update(section: string, key: string, scalar: string)

  type Pair = (string, string)

  /** The updates as a map; each (section, key) has one. */
  function Wanted(us: seq<Update>): map<Pair, string> {
    if us == [] then map[]
    else
      var u := us[|us| - 1];
      Wanted(us[..|us| - 1])[(u.section, u.key) := u.scalar]
  }

  /** The names are identifiers, the scalars fit on a line, no (section, key) is updated twice. */
  ghost predicate WellFormed(us: seq<Update>) {
    && (forall i | 0 <= i < |us| :: Identifier(us[i].section) && Identifier(us[i].key) && NoBreaks(us[i].scalar))
    && (forall i, j | 0 <= i < j < |us| :: us[i].section != us[j].section || us[i].key != us[j].key)
  }

  // ---- reading a file -----------------------------------------------------------------------------

  /** The key of a line that opens no section. */
  function Named(line: string): Option<string> {
    if SectionOf(line).Some? || KeyOf(line).None? then None else Some(KeyOf(line).value.1)
  }

  /** The section that a following line belongs to. */
  function SectionAt(lines: seq<string>): Option<string> {
    if lines == [] then None
    else if SectionOf(lines[|lines| - 1]).Some? then SectionOf(lines[|lines| - 1])
    else SectionAt(lines[..|lines| - 1])
  }

  function Headers(lines: seq<string>): seq<string> {
    if lines == [] then []
    else
      var name := SectionOf(lines[|lines| - 1]);
      Headers(lines[..|lines| - 1]) + if name.Some? then [name.value] else []
  }

  predicate Holds(before: seq<string>, line: string, s: string, k: string) {
    SectionAt(before) == Some(s) && Named(line) == Some(k)
  }

  /** The lines that give a key of a section, in order. */
  function LinesOf(lines: seq<string>, s: string, k: string): seq<string> {
    if lines == [] then []
    else
      var n := |lines| - 1;
      LinesOf(lines[..n], s, k) + if Holds(lines[..n], lines[n], s, k) then [lines[n]] else []
  }

  // ---- the edit -----------------------------------------------------------------------------------

  /** `pending`: the updates not yet made. */
  datatype State = State(out: seq<string>, current: Option<string>, pending: set<Pair>)

  /** The pending keys of a section as new lines, in the order of the updates. */
  function NewLines(us: seq<Update>, pending: set<Pair>, s: string): seq<string> {
    if us == [] then []
    else
      var u := us[|us| - 1];
      NewLines(us[..|us| - 1], pending, s)
      + if u.section == s && (s, u.key) in pending then [Inserted(u.key, u.scalar)] else []
  }

  function OtherSections(pending: set<Pair>, s: string): set<Pair> { set p | p in pending && p.0 != s }

  /** `_flush_section_keys` of the current section. */
  function Flush(us: seq<Update>, st: State): State {
    match st.current
    case None => st
    case Some(s) => State(st.out + NewLines(us, st.pending, s), st.current, OtherSections(st.pending, s))
  }

  function Feed(us: seq<Update>, st: State, line: string): State {
    match SectionOf(line)
    case Some(s) =>
      var f := Flush(us, st);
      State(f.out + [line], Some(s), f.pending)
    case None =>
      var k := Named(line);
      if st.current.Some? && k.Some? && (st.current.value, k.value) in st.pending * Wanted(us).Keys then
        var p := (st.current.value, k.value);
        State(st.out + [Rewritten(line, k.value, Wanted(us)[p])], st.current, st.pending - {p})
      else State(st.out + [line], st.current, st.pending)
  }

  function Fed(us: seq<Update>, lines: seq<string>): State {
    if lines == [] then State([], None, Wanted(us).Keys)
    else Feed(us, Fed(us, lines[..|lines| - 1]), lines[|lines| - 1])
  }

  /** The sections that still have pending keys, in the order of the updates. */
  function NewSections(us: seq<Update>, pending: set<Pair>): seq<string> {
    if us == [] then []
    else
      var u := us[|us| - 1];
      var r := NewSections(us[..|us| - 1], pending);
      if (u.section, u.key) in pending && u.section !in r then r + [u.section] else r
  }

  function Gap(out: seq<string>): seq<string> {
    if out != [] && Strip(out[|out| - 1]) != "" then ["\n"] else []
  }

  function Appended(us: seq<Update>, pending: set<Pair>, out: seq<string>, sections: seq<string>): seq<string> {
    if sections == [] then out
    else
      var s := sections[|sections| - 1];
      var before := Appended(us, pending, out, sections[..|sections| - 1]);
      before + Gap(before) + [Header(s)] + NewLines(us, pending, s)
  }

  function Closed(us: seq<Update>, lines: seq<string>): State { Flush(us, Fed(us, lines)) }

  /** `update_config_values`, from lines to lines. */
  function Edited(us: seq<Update>, lines: seq<string>): seq<string> {
    var f := Closed(us, lines);
    Appended(us, f.pending, f.out, NewSections(us, f.pending))
  }

  // ---- what adding lines does to a file ---------------------------------------------------------------

  lemma Extend(lines: seq<string>, line: string)
    ensures SectionAt(lines + [line]) == if SectionOf(line).Some? then SectionOf(line) else SectionAt(lines)
    ensures Headers(lines + [line]) == Headers(lines) + if SectionOf(line).Some? then [SectionOf(line).value] else []
  {
    assert (lines + [line])[..|lines|] == lines;
  }

  lemma ExtendLinesOf(lines: seq<string>, line: string, s: string, k: string)
    ensures LinesOf(lines + [line], s, k)
         == LinesOf(lines, s, k) + if Holds(lines, line, s, k) then [line] else []
  {
    assert (lines + [line])[..|lines|] == lines;
  }

  lemma {:induction false} WantedPair(us: seq<Update>, i: nat)
    requires WellFormed(us) && i < |us|
    ensures (us[i].section, us[i].key) in Wanted(us) && Wanted(us)[(us[i].section, us[i].key)] == us[i].scalar
  {
    var n := |us| - 1;
    if i < n {
      assert us[..n][i] == us[i];
      WantedPair(us[..n], i);
    }
  }

  lemma {:induction false} WantedIsUpdate(us: seq<Update>, p: Pair)
    requires p in Wanted(us)
    ensures exists i :: 0 <= i < |us| && us[i] == Update(p.0, p.1, Wanted(us)[p])
  {
    var n := |us| - 1;
    if p != (us[n].section, us[n].key) {
      WantedIsUpdate(us[..n], p);
      var i :| 0 <= i < n && us[..n][i] == Update(p.0, p.1, Wanted(us[..n])[p]);
      assert us[i] == Update(p.0, p.1, Wanted(us)[p]);
    } else {
      assert us[n] == Update(p.0, p.1, Wanted(us)[p]);
    }
  }

  /** New lines change neither the section nor the headers. */
  lemma {:induction false} NewLinesStay(us: seq<Update>, pending: set<Pair>, s: string, out: seq<string>)
    requires WellFormed(us) && SectionAt(out) == Some(s)
    ensures SectionAt(out + NewLines(us, pending, s)) == Some(s)
    ensures Headers(out + NewLines(us, pending, s)) == Headers(out)
  {
    if us == [] {
      assert out + NewLines(us, pending, s) == out;
    } else {
      var n := |us| - 1;
      NewLinesStay(us[..n], pending, s, out);
      NewLinesStep(us, pending, s, out);
      var line := Inserted(us[n].key, us[n].scalar);
      InsertedIsKey(us[n].key, us[n].scalar);
      Extend(out + NewLines(us[..n], pending, s), line);
    }
  }

  lemma NewLinesStep(us: seq<Update>, pending: set<Pair>, s: string, out: seq<string>)
    requires us != []
    ensures var u := us[|us| - 1]; var before := out + NewLines(us[..|us| - 1], pending, s);
      out + NewLines(us, pending, s)
        == if u.section == s && (s, u.key) in pending then before + [Inserted(u.key, u.scalar)] else before
  {
  }

  function InsertedFor(us: seq<Update>, pending: set<Pair>, s: string, k: string): seq<string> {
    if (s, k) in pending && (s, k) in Wanted(us) then [Inserted(k, Wanted(us)[(s, k)])] else []
  }

  lemma LastIsNew(us: seq<Update>, s: string, k: string)
    requires WellFormed(us) && us != [] && (s, k) == (us[|us| - 1].section, us[|us| - 1].key)
    ensures (s, k) !in Wanted(us[..|us| - 1])
  {
    var n := |us| - 1;
    if (s, k) in Wanted(us[..n]) {
      WantedIsUpdate(us[..n], (s, k));
    }
  }

  lemma InsertedForStep(us: seq<Update>, pending: set<Pair>, s: string, k: string)
    requires WellFormed(us) && us != []
    ensures var u := us[|us| - 1];
      InsertedFor(us, pending, s, k) == InsertedFor(us[..|us| - 1], pending, s, k)
        + if u.section == s && u.key == k && (s, k) in pending then [Inserted(u.key, u.scalar)] else []
  {
    var u := us[|us| - 1];
    if (s, k) == (u.section, u.key) { LastIsNew(us, s, k); }
  }

  lemma InsertedHolds(before: seq<string>, u: Update, s: string, t: string, k: string)
    requires Identifier(u.key) && SectionAt(before) == Some(s)
    ensures Holds(before, Inserted(u.key, u.scalar), t, k) <==> t == s && k == u.key
  {
    InsertedIsKey(u.key, u.scalar);
  }

  lemma NewLinesGiveStep(us: seq<Update>, pending: set<Pair>, s: string, out: seq<string>, t: string, k: string)
    requires WellFormed(us) && us != [] && SectionAt(out) == Some(s)
    ensures var n := |us| - 1;
      LinesOf(out + NewLines(us, pending, s), t, k)
        == LinesOf(out + NewLines(us[..n], pending, s), t, k)
           + if t == s && us[n].section == s && us[n].key == k && (s, k) in pending
             then [Inserted(us[n].key, us[n].scalar)] else []
  {
    var n := |us| - 1;
    var u, before := us[n], out + NewLines(us[..n], pending, s);
    NewLinesStep(us, pending, s, out);
    if u.section == s && (s, u.key) in pending {
      NewLinesStay(us[..n], pending, s, out);
      InsertedHolds(before, u, s, t, k);
      ExtendLinesOf(before, Inserted(u.key, u.scalar), t, k);
    }
  }

  /** New lines give exactly the pending keys of their section. */
  lemma {:induction false} NewLinesGive(us: seq<Update>, pending: set<Pair>, s: string, out: seq<string>, t: string, k: string)
    requires WellFormed(us) && SectionAt(out) == Some(s)
    ensures LinesOf(out + NewLines(us, pending, s), t, k)
         == LinesOf(out, t, k) + if t == s then InsertedFor(us, pending, s, k) else []
  {
    if us == [] {
      assert out + NewLines(us, pending, s) == out;
    } else {
      NewLinesGive(us[..|us| - 1], pending, s, out, t, k);
      NewLinesGiveStep(us, pending, s, out, t, k);
      InsertedForStep(us, pending, s, k);
    }
  }

  // ---- one pass -------------------------------------------------------------------------------------

  /** What an update makes of the lines of its key. */
  function Replaced(ls: seq<string>, k: string, v: string): seq<string> {
    if ls == [] then [Inserted(k, v)]
    else if KeyOf(ls[0]).None? then ls
    else [Rewritten(ls[0], k, v)] + ls[1..]
  }

  predicate UniqueSections(lines: seq<string>) { forall i, j | 0 <= i < j < |Headers(lines)| :: Headers(lines)[i] != Headers(lines)[j] }

  /** After some lines, for one key of one section: an update is pending until its line is seen or
      its section ends, and afterwards its lines are replaced; any other key has its old lines. */
  ghost predicate Tracks(us: seq<Update>, lines: seq<string>, st: State, s: string, k: string) {
    var old', new', open := LinesOf(lines, s, k), LinesOf(st.out, s, k), SectionAt(lines) == Some(s);
    if (s, k) !in Wanted(us) then new' == old'
    else if (s, k) in st.pending then old' == [] && new' == [] && (open || s !in Headers(lines))
    else new' == Replaced(old', k, Wanted(us)[(s, k)]) && (old' == [] ==> s in Headers(lines) && !open)
  }

  ghost predicate Follows(lines: seq<string>, st: State) {
    && st.current == SectionAt(lines) && SectionAt(st.out) == SectionAt(lines) && Headers(st.out) == Headers(lines)
  }

  lemma NamedShape(line: string)
    requires Named(line).Some?
    ensures SectionOf(line).None? && KeyOf(line).Some? && KeyOf(line).value.1 == Named(line).value
  {
  }

  lemma RewrittenNamed(line: string, k: string, v: string)
    requires Named(line) == Some(k)
    ensures KeyOf(line).Some? && Named(Rewritten(line, k, v)) == Some(k) && SectionOf(Rewritten(line, k, v)) == None
  {
    RewrittenIsKey(line, k, v);
  }

  lemma {:induction false} HeadersHave(lines: seq<string>)
    ensures SectionAt(lines).Some? ==> SectionAt(lines).value in Headers(lines)
  {
    if lines != [] { HeadersHave(lines[..|lines| - 1]); }
  }

  /** Flushing closes the current section. */
  lemma FlushFollows(us: seq<Update>, lines: seq<string>, st: State)
    requires WellFormed(us) && Follows(lines, st)
    ensures Follows(lines, Flush(us, st))
  {
    if st.current.Some? { NewLinesStay(us, st.pending, st.current.value, st.out); }
  }

  /** Like `Tracks`, with the current section closed. */
  ghost predicate TracksClosed(us: seq<Update>, lines: seq<string>, st: State, s: string, k: string) {
    var old', new' := LinesOf(lines, s, k), LinesOf(st.out, s, k);
    if (s, k) !in Wanted(us) then new' == old'
    else if (s, k) in st.pending then old' == [] && new' == [] && s !in Headers(lines)
    else new' == Replaced(old', k, Wanted(us)[(s, k)]) && (old' == [] ==> s in Headers(lines))
  }

  lemma FlushTracks(us: seq<Update>, lines: seq<string>, st: State, s: string, k: string)
    requires WellFormed(us) && Follows(lines, st) && Tracks(us, lines, st, s, k)
    ensures TracksClosed(us, lines, Flush(us, st), s, k)
  {
    HeadersHave(lines);
    if st.current.Some? { NewLinesGive(us, st.pending, st.current.value, st.out, s, k); }
  }

  lemma {:induction false} FedFollows(us: seq<Update>, lines: seq<string>)
    requires WellFormed(us)
    ensures Follows(lines, Fed(us, lines))
  {
    if lines != [] {
      var n := |lines| - 1;
      FedFollows(us, lines[..n]);
      assert lines == lines[..n] + [lines[n]];
      FeedFollows(us, lines[..n], Fed(us, lines[..n]), lines[n]);
    }
  }

  lemma FeedFollows(us: seq<Update>, lines: seq<string>, st: State, line: string)
    requires WellFormed(us) && Follows(lines, st)
    ensures Follows(lines + [line], Feed(us, st, line))
  {
    Extend(lines, line);
    if SectionOf(line).Some? {
      FlushFollows(us, lines, st);
      Extend(Flush(us, st).out, line);
    } else {
      Extend(st.out, line);
      var k := Named(line);
      if st.current.Some? && k.Some? && (st.current.value, k.value) in st.pending * Wanted(us).Keys {
        var v := Wanted(us)[(st.current.value, k.value)];
        RewrittenNamed(line, k.value, v);
        Extend(st.out, Rewritten(line, k.value, v));
      }
    }
  }

  lemma FeedHeader(us: seq<Update>, lines: seq<string>, st: State, line: string, s: string, k: string)
    requires WellFormed(us) && Follows(lines, st) && Tracks(us, lines, st, s, k) && SectionOf(line).Some?
    requires UniqueSections(lines + [line])
    ensures Tracks(us, lines + [line], Feed(us, st, line), s, k)
  {
    FlushTracks(us, lines, st, s, k);
    var f := Flush(us, st);
    Extend(lines, line);
    ExtendLinesOf(lines, line, s, k);
    ExtendLinesOf(f.out, line, s, k);
    var hs, name := Headers(lines), SectionOf(line).value;
    forall i | 0 <= i < |hs| ensures hs[i] != name {
      assert Headers(lines + [line])[i] == hs[i] && Headers(lines + [line])[|hs|] == name;
    }
  }

  lemma ReplacedMore(ls: seq<string>, k: string, v: string, line: string)
    requires ls != []
    ensures Replaced(ls + [line], k, v) == Replaced(ls, k, v) + [line]
  {
    assert (ls + [line])[1..] == ls[1..] + [line];
  }

  lemma FeedPlain(us: seq<Update>, lines: seq<string>, st: State, line: string, s: string, k: string)
    requires WellFormed(us) && Follows(lines, st) && Tracks(us, lines, st, s, k) && SectionOf(line).None?
    requires !(st.current.Some? && Named(line).Some?
               && (st.current.value, Named(line).value) in st.pending * Wanted(us).Keys)
    ensures Tracks(us, lines + [line], Feed(us, st, line), s, k)
  {
    Extend(lines, line);
    ExtendLinesOf(lines, line, s, k);
    ExtendLinesOf(st.out, line, s, k);
    if (s, k) in Wanted(us) && LinesOf(lines, s, k) != [] {
      ReplacedMore(LinesOf(lines, s, k), k, Wanted(us)[(s, k)], line);
    }
  }

  lemma FeedKey(us: seq<Update>, lines: seq<string>, st: State, line: string, s: string, k: string)
    requires WellFormed(us) && Follows(lines, st) && Tracks(us, lines, st, s, k)
    requires st.current == Some(s) && Named(line) == Some(k) && (s, k) in st.pending * Wanted(us).Keys
    ensures Tracks(us, lines + [line], Feed(us, st, line), s, k)
  {
    RewrittenNamed(line, k, Wanted(us)[(s, k)]);
    Extend(lines, line);
    ExtendLinesOf(lines, line, s, k);
    ExtendLinesOf(st.out, Rewritten(line, k, Wanted(us)[(s, k)]), s, k);
  }

  /** A line of another key, in or out, leaves this key alone. */
  lemma OtherLines(lines: seq<string>, st: State, line: string, written: string, p: Pair, s: string, k: string)
    requires Follows(lines, st) && st.current == Some(p.0) && p != (s, k)
    requires Named(line) == Some(p.1) && Named(written) == Some(p.1)
    ensures LinesOf(lines + [line], s, k) == LinesOf(lines, s, k)
    ensures LinesOf(st.out + [written], s, k) == LinesOf(st.out, s, k)
    ensures SectionAt(lines + [line]) == SectionAt(lines) && Headers(lines + [line]) == Headers(lines)
  {
    Extend(lines, line);
    ExtendLinesOf(lines, line, s, k);
    ExtendLinesOf(st.out, written, s, k);
  }

  lemma FeedOtherKey(us: seq<Update>, lines: seq<string>, st: State, line: string, p: Pair, s: string, k: string)
    requires WellFormed(us) && Follows(lines, st) && Tracks(us, lines, st, s, k) && p != (s, k)
    requires st.current == Some(p.0) && Named(line) == Some(p.1) && p in st.pending * Wanted(us).Keys
    ensures Tracks(us, lines + [line], Feed(us, st, line), s, k)
  {
    var written := Rewritten(line, p.1, Wanted(us)[p]);
    RewrittenNamed(line, p.1, Wanted(us)[p]);
    OtherLines(lines, st, line, written, p, s, k);
    assert Feed(us, st, line) == State(st.out + [written], st.current, st.pending - {p});
  }

  lemma UniquePrefix(lines: seq<string>, line: string)
    requires UniqueSections(lines + [line])
    ensures UniqueSections(lines)
  {
    Extend(lines, line);
    var hs, all := Headers(lines), Headers(lines + [line]);
    forall i, j | 0 <= i < j < |hs| ensures hs[i] != hs[j] {
      assert all[i] == hs[i] && all[j] == hs[j];
    }
  }

  lemma {:induction false} FedTracks(us: seq<Update>, lines: seq<string>, s: string, k: string)
    requires WellFormed(us) && UniqueSections(lines)
    ensures Tracks(us, lines, Fed(us, lines), s, k)
  {
    if lines != [] {
      var n := |lines| - 1;
      var before, line := lines[..n], lines[n];
      assert lines == before + [line];
      UniquePrefix(before, line);
      FedTracks(us, before, s, k);
      FedFollows(us, before);
      var st := Fed(us, before);
      if SectionOf(line).Some? {
        FeedHeader(us, before, st, line, s, k);
      } else if st.current.Some? && Named(line).Some? && (st.current.value, Named(line).value) in st.pending * Wanted(us).Keys {
        var p := (st.current.value, Named(line).value);
        if p == (s, k) { FeedKey(us, before, st, line, s, k); } else { FeedOtherKey(us, before, st, line, p, s, k); }
      } else {
        FeedPlain(us, before, st, line, s, k);
      }
    }
  }

  lemma ClosedTracks(us: seq<Update>, lines: seq<string>, s: string, k: string)
    requires WellFormed(us) && UniqueSections(lines)
    ensures TracksClosed(us, lines, Closed(us, lines), s, k)
    ensures Headers(Closed(us, lines).out) == Headers(lines)
  {
    FedTracks(us, lines, s, k);
    FedFollows(us, lines);
    FlushTracks(us, lines, Fed(us, lines), s, k);
    FlushFollows(us, lines, Fed(us, lines));
  }

  lemma {:induction false} FedPending(us: seq<Update>, lines: seq<string>)
    ensures Fed(us, lines).pending <= Wanted(us).Keys
  {
    if lines != [] { FedPending(us, lines[..|lines| - 1]); }
  }

  // ---- new sections -----------------------------------------------------------------------------------

  lemma {:induction false} NewSectionsAre(us: seq<Update>, pending: set<Pair>)
    ensures Distinct(NewSections(us, pending))
    ensures forall s | s in NewSections(us, pending) ::
      exists i :: 0 <= i < |us| && us[i].section == s && (s, us[i].key) in pending
  {
    if us != [] {
      var n := |us| - 1;
      NewSectionsAre(us[..n], pending);
      forall s | s in NewSections(us, pending)
        ensures exists i :: 0 <= i < |us| && us[i].section == s && (s, us[i].key) in pending
      {
        if s in NewSections(us[..n], pending) {
          var i :| 0 <= i < n && us[..n][i].section == s && (s, us[..n][i].key) in pending;
          assert us[i] == us[..n][i];
        } else {
          assert us[n].section == s;
        }
      }
    }
  }

  lemma {:induction false} NewSectionsHave(us: seq<Update>, pending: set<Pair>, i: nat)
    requires i < |us| && (us[i].section, us[i].key) in pending
    ensures us[i].section in NewSections(us, pending)
  {
    var n := |us| - 1;
    if i < n {
      assert us[..n][i] == us[i];
      NewSectionsHave(us[..n], pending, i);
    }
  }

  lemma PendingHasSection(us: seq<Update>, pending: set<Pair>, p: Pair)
    requires p in pending && p in Wanted(us)
    ensures p.0 in NewSections(us, pending)
  {
    WantedIsUpdate(us, p);
    var i :| 0 <= i < |us| && us[i] == Update(p.0, p.1, Wanted(us)[p]);
    NewSectionsHave(us, pending, i);
  }

  ghost predicate Names(sections: seq<string>) { forall i | 0 <= i < |sections| :: Identifier(sections[i]) }

  /** One appended section. */
  function Opened(out: seq<string>, s: string): seq<string> { out + Gap(out) + [Header(s)] }

  lemma OpenedIs(out: seq<string>, s: string, t: string, k: string)
    requires Identifier(s)
    ensures SectionAt(Opened(out, s)) == Some(s) && Headers(Opened(out, s)) == Headers(out) + [s]
    ensures LinesOf(Opened(out, s), t, k) == LinesOf(out, t, k)
  {
    var gapped := out + Gap(out);
    EmptyLineIsNothing();
    HeaderIsSection(s);
    Extend(out, "\n");
    ExtendLinesOf(out, "\n", t, k);
    Extend(gapped, Header(s));
    ExtendLinesOf(gapped, Header(s), t, k);
    assert out + [] == out;
  }

  /** One more section, with its new lines. */
  lemma SectionAppended(us: seq<Update>, pending: set<Pair>, out: seq<string>, s: string, t: string, k: string)
    requires WellFormed(us) && Identifier(s)
    ensures var r := Opened(out, s) + NewLines(us, pending, s);
      && Headers(r) == Headers(out) + [s]
      && LinesOf(r, t, k) == LinesOf(out, t, k) + if t == s then InsertedFor(us, pending, s, k) else []
  {
    OpenedIs(out, s, t, k);
    NewLinesStay(us, pending, s, Opened(out, s));
    NewLinesGive(us, pending, s, Opened(out, s), t, k);
  }

  lemma LastOnce(sections: seq<string>, t: string)
    requires sections != [] && Distinct(sections)
    ensures var n := |sections| - 1;
      && (t in sections <==> t in sections[..n] || t == sections[n])
      && sections[n] !in sections[..n]
      && sections == sections[..n] + [sections[n]]
      && Distinct(sections[..n])
  {
    var n := |sections| - 1;
    assert sections == sections[..n] + [sections[n]];
  }

  lemma AppendedStep(us: seq<Update>, pending: set<Pair>, out: seq<string>, sections: seq<string>)
    requires sections != []
    ensures var n := |sections| - 1;
      Appended(us, pending, out, sections)
        == Opened(Appended(us, pending, out, sections[..n]), sections[n]) + NewLines(us, pending, sections[n])
  {
  }

  lemma SnocAfter(a: seq<string>, b: seq<string>)
    requires b != []
    ensures (a + b[..|b| - 1]) + [b[|b| - 1]] == a + b
  {
  }

  lemma {:induction false} AppendedHeaders(us: seq<Update>, pending: set<Pair>, out: seq<string>, sections: seq<string>)
    requires WellFormed(us) && Names(sections)
    ensures Headers(Appended(us, pending, out, sections)) == Headers(out) + sections
  {
    if sections != [] {
      var n := |sections| - 1;
      AppendedHeaders(us, pending, out, sections[..n]);
      AppendedStep(us, pending, out, sections);
      SectionAppended(us, pending, Appended(us, pending, out, sections[..n]), sections[n], "", "");
      SnocAfter(Headers(out), sections);
    }
  }

  lemma {:induction false} AppendedGives(us: seq<Update>, pending: set<Pair>, out: seq<string>, sections: seq<string>,
                                         t: string, k: string)
    requires WellFormed(us) && Names(sections) && Distinct(sections)
    ensures LinesOf(Appended(us, pending, out, sections), t, k)
         == LinesOf(out, t, k) + if t in sections then InsertedFor(us, pending, t, k) else []
  {
    if sections != [] {
      var n := |sections| - 1;
      LastOnce(sections, t);
      AppendedGives(us, pending, out, sections[..n], t, k);
      AppendedStep(us, pending, out, sections);
      SectionAppended(us, pending, Appended(us, pending, out, sections[..n]), sections[n], t, k);
    }
  }

  lemma NewNames(us: seq<Update>, pending: set<Pair>)
    requires WellFormed(us)
    ensures Names(NewSections(us, pending))
  {
    NewSectionsAre(us, pending);
    var r := NewSections(us, pending);
    forall i | 0 <= i < |r| ensures Identifier(r[i]) {
      assert r[i] in r;
    }
  }

  // ---- the edit is a map update -------------------------------------------------------------------------

  /** For every section and key: an updated key has its first line replaced by the new value, or a
      new line where it had none; every other key keeps its lines. */
  lemma EditIsMapUpdate(us: seq<Update>, lines: seq<string>, s: string, k: string)
    requires WellFormed(us) && UniqueSections(lines)
    ensures LinesOf(Edited(us, lines), s, k)
         == if (s, k) in Wanted(us) then Replaced(LinesOf(lines, s, k), k, Wanted(us)[(s, k)])
            else LinesOf(lines, s, k)
  {
    var f := Closed(us, lines);
    ClosedTracks(us, lines, s, k);
    FedPending(us, lines);
    NewNames(us, f.pending);
    NewSectionsAre(us, f.pending);
    AppendedGives(us, f.pending, f.out, NewSections(us, f.pending), s, k);
    if (s, k) in f.pending { PendingHasSection(us, f.pending, (s, k)); }
  }

  lemma {:induction false} LinesAreNamed(lines: seq<string>, s: string, k: string)
    ensures forall i | 0 <= i < |LinesOf(lines, s, k)| :: Named(LinesOf(lines, s, k)[i]) == Some(k)
  {
    if lines != [] { LinesAreNamed(lines[..|lines| - 1], s, k); }
  }

  /** What follows the scalar on its line: the comment and the end of the line that it replaced. */
  function AfterScalar(ls: seq<string>): string {
    if ls == [] then "\n" else Comment(ls[0]) + Eol(ls[0])
  }

  lemma ReplacedReads(ls: seq<string>, k: string, v: string)
    requires Identifier(k) && (ls != [] ==> Named(ls[0]) == Some(k))
    ensures var r := Replaced(ls, k, v);
      && |r| == (if ls == [] then 1 else |ls|)
      && ValueText(r[0]) == " " + v + AfterScalar(ls)
  {
    if ls == [] {
      InsertedReads(k, v);
    } else {
      NamedShape(ls[0]);
      RewrittenReads(ls[0], k, v);
      assert " " + v + Comment(ls[0]) + Eol(ls[0]) == " " + v + (Comment(ls[0]) + Eol(ls[0]));
    }
  }

  /** The file then gives the new value: the first line of an updated key reads as the scalar, with
      the comment and the end of the line that it replaced, if there was one. */
  lemma UpdatedReads(us: seq<Update>, lines: seq<string>, s: string, k: string)
    requires WellFormed(us) && UniqueSections(lines) && (s, k) in Wanted(us)
    ensures var old', new' := LinesOf(lines, s, k), LinesOf(Edited(us, lines), s, k);
      && |new'| == (if old' == [] then 1 else |old'|)
      && ValueText(new'[0]) == " " + Wanted(us)[(s, k)] + AfterScalar(old')
  {
    EditIsMapUpdate(us, lines, s, k);
    LinesAreNamed(lines, s, k);
    WantedIsUpdate(us, (s, k));
    ReplacedReads(LinesOf(lines, s, k), k, Wanted(us)[(s, k)]);
  }

  lemma EditHeaders(us: seq<Update>, lines: seq<string>)
    requires WellFormed(us) && UniqueSections(lines)
    ensures Headers(Edited(us, lines)) == Headers(lines) + NewSections(us, Closed(us, lines).pending)
  {
    var f := Closed(us, lines);
    ClosedTracks(us, lines, "", "");
    NewNames(us, f.pending);
    AppendedHeaders(us, f.pending, f.out, NewSections(us, f.pending));
  }

  lemma NewSectionIsNew(us: seq<Update>, lines: seq<string>, s: string)
    requires WellFormed(us) && UniqueSections(lines) && s in NewSections(us, Closed(us, lines).pending)
    ensures s !in Headers(lines)
  {
    var f := Closed(us, lines);
    NewSectionsAre(us, f.pending);
    FedPending(us, lines);
    var i :| 0 <= i < |us| && us[i].section == s && (s, us[i].key) in f.pending;
    ClosedTracks(us, lines, s, us[i].key);
  }

  /** The edit adds sections only for updates whose section the file did not have, so sections
      stay unique, and so do the keys that were. */
  lemma EditKeepsUnique(us: seq<Update>, lines: seq<string>)
    requires WellFormed(us) && UniqueSections(lines)
    ensures UniqueSections(Edited(us, lines))
    ensures forall s, k | |LinesOf(lines, s, k)| <= 1 :: |LinesOf(Edited(us, lines), s, k)| <= 1
  {
    var old', added := Headers(lines), NewSections(us, Closed(us, lines).pending);
    EditHeaders(us, lines);
    NewSectionsAre(us, Closed(us, lines).pending);
    forall i, j | 0 <= i < |old'| && 0 <= j < |added| ensures old'[i] != added[j] {
      NewSectionIsNew(us, lines, added[j]);
    }
    forall s, k | |LinesOf(lines, s, k)| <= 1 ensures |LinesOf(Edited(us, lines), s, k)| <= 1 {
      EditIsMapUpdate(us, lines, s, k);
    }
  }

  // ---- the other lines ----------------------------------------------------------------------------------

  predicate IsUpdated(us: seq<Update>, before: seq<string>, line: string) {
    SectionAt(before).Some? && Named(line).Some? && (SectionAt(before).value, Named(line).value) in Wanted(us)
  }

  /** The lines that give no updated key. */
  function Others(us: seq<Update>, lines: seq<string>): seq<string> {
    if lines == [] then []
    else
      var n := |lines| - 1;
      Others(us, lines[..n]) + if IsUpdated(us, lines[..n], lines[n]) then [] else [lines[n]]
  }

  lemma ExtendOthers(us: seq<Update>, lines: seq<string>, line: string)
    ensures Others(us, lines + [line]) == Others(us, lines) + if IsUpdated(us, lines, line) then [] else [line]
  {
    assert (lines + [line])[..|lines|] == lines;
  }

  lemma WantedPrefix(all: seq<Update>, us: seq<Update>, i: nat)
    requires WellFormed(all) && us <= all && i < |us|
    ensures (us[i].section, us[i].key) in Wanted(all)
  {
    assert all[i] == us[i];
    WantedPair(all, i);
  }

  lemma PrefixWellFormed(all: seq<Update>, us: seq<Update>)
    requires WellFormed(all) && us <= all
    ensures WellFormed(us)
  {
    forall i | 0 <= i < |us| ensures us[i] == all[i] {
    }
  }

  lemma InsertedIsUpdated(all: seq<Update>, before: seq<string>, u: Update, s: string)
    requires Identifier(u.key) && SectionAt(before) == Some(s) && (s, u.key) in Wanted(all)
    ensures Others(all, before + [Inserted(u.key, u.scalar)]) == Others(all, before)
  {
    InsertedIsKey(u.key, u.scalar);
    ExtendOthers(all, before, Inserted(u.key, u.scalar));
  }

  lemma {:induction false} NewLinesAreUpdated(all: seq<Update>, us: seq<Update>, pending: set<Pair>, s: string, out: seq<string>)
    requires WellFormed(all) && us <= all && SectionAt(out) == Some(s)
    ensures Others(all, out + NewLines(us, pending, s)) == Others(all, out)
  {
    if us == [] {
      assert out + NewLines(us, pending, s) == out;
    } else {
      var n := |us| - 1;
      var u, before := us[n], out + NewLines(us[..n], pending, s);
      NewLinesAreUpdated(all, us[..n], pending, s, out);
      NewLinesStep(us, pending, s, out);
      if u.section == s && (s, u.key) in pending {
        WantedPrefix(all, us, n);
        PrefixWellFormed(all, us);
        PrefixWellFormed(all, us[..n]);
        NewLinesStay(us[..n], pending, s, out);
        InsertedIsUpdated(all, before, u, s);
      }
    }
  }

  lemma FlushOthers(us: seq<Update>, lines: seq<string>, st: State)
    requires WellFormed(us) && Follows(lines, st)
    ensures Others(us, Flush(us, st).out) == Others(us, st.out)
  {
    if st.current.Some? { NewLinesAreUpdated(us, us, st.pending, st.current.value, st.out); }
  }

  lemma FeedOthers(us: seq<Update>, lines: seq<string>, st: State, line: string)
    requires WellFormed(us) && Follows(lines, st) && Others(us, st.out) == Others(us, lines)
    ensures Others(us, Feed(us, st, line).out) == Others(us, lines + [line])
  {
    ExtendOthers(us, lines, line);
    if SectionOf(line).Some? {
      FlushOthers(us, lines, st);
      FlushFollows(us, lines, st);
      ExtendOthers(us, Flush(us, st).out, line);
    } else {
      ExtendOthers(us, st.out, line);
      var k := Named(line);
      if st.current.Some? && k.Some? && (st.current.value, k.value) in st.pending * Wanted(us).Keys {
        var v := Wanted(us)[(st.current.value, k.value)];
        RewrittenNamed(line, k.value, v);
        ExtendOthers(us, st.out, Rewritten(line, k.value, v));
      }
    }
  }

  lemma {:induction false} FedOthers(us: seq<Update>, lines: seq<string>)
    requires WellFormed(us)
    ensures Others(us, Fed(us, lines).out) == Others(us, lines)
  {
    if lines != [] {
      var n := |lines| - 1;
      FedOthers(us, lines[..n]);
      FedFollows(us, lines[..n]);
      assert lines == lines[..n] + [lines[n]];
      FeedOthers(us, lines[..n], Fed(us, lines[..n]), lines[n]);
    }
  }

  /** The empty lines and section lines that new sections bring. */
  function SectionLines(us: seq<Update>, pending: set<Pair>, out: seq<string>, sections: seq<string>): seq<string> {
    if sections == [] then []
    else
      var n := |sections| - 1;
      SectionLines(us, pending, out, sections[..n])
      + Gap(Appended(us, pending, out, sections[..n])) + [Header(sections[n])]
  }

  lemma OpenedOthers(us: seq<Update>, out: seq<string>, s: string)
    requires Identifier(s)
    ensures Others(us, Opened(out, s)) == Others(us, out) + Gap(out) + [Header(s)]
  {
    EmptyLineIsNothing();
    HeaderIsSection(s);
    ExtendOthers(us, out, "\n");
    ExtendOthers(us, out + Gap(out), Header(s));
    assert out + [] == out;
  }

  lemma SectionOthers(us: seq<Update>, pending: set<Pair>, out: seq<string>, s: string)
    requires WellFormed(us) && Identifier(s)
    ensures Others(us, Opened(out, s) + NewLines(us, pending, s)) == Others(us, out) + Gap(out) + [Header(s)]
  {
    OpenedOthers(us, out, s);
    OpenedIs(out, s, "", "");
    NewLinesAreUpdated(us, us, pending, s, Opened(out, s));
  }

  lemma Fourfold(a: seq<string>, b: seq<string>, c: seq<string>, d: seq<string>)
    ensures (a + b) + c + d == a + (b + c + d)
  {
  }

  lemma {:induction false} AppendedOthers(us: seq<Update>, pending: set<Pair>, out: seq<string>, sections: seq<string>)
    requires WellFormed(us) && Names(sections)
    ensures Others(us, Appended(us, pending, out, sections)) == Others(us, out) + SectionLines(us, pending, out, sections)
  {
    if sections != [] {
      var n := |sections| - 1;
      var before := Appended(us, pending, out, sections[..n]);
      AppendedOthers(us, pending, out, sections[..n]);
      AppendedStep(us, pending, out, sections);
      SectionOthers(us, pending, before, sections[n]);
      Fourfold(Others(us, out), SectionLines(us, pending, out, sections[..n]), Gap(before), [Header(sections[n])]);
    }
  }

  /** Every line that gives no updated key keeps its text and its place among the others; besides
      them the edit only adds empty lines and section lines, at the end. */
  lemma OthersStay(us: seq<Update>, lines: seq<string>)
    requires WellFormed(us)
    ensures var f := Closed(us, lines);
      Others(us, Edited(us, lines))
        == Others(us, lines) + SectionLines(us, f.pending, f.out, NewSections(us, f.pending))
  {
    var f := Closed(us, lines);
    FedOthers(us, lines);
    FedFollows(us, lines);
    FlushOthers(us, lines, Fed(us, lines));
    NewNames(us, f.pending);
    AppendedOthers(us, f.pending, f.out, NewSections(us, f.pending));
  }

  // ---- a second run -------------------------------------------------------------------------------------

  /** Nothing is added: the first line of each updated key is rewritten where it stands. */
  function InPlaceLine(us: seq<Update>, before: seq<string>, line: string): string {
    if IsUpdated(us, before, line) && LinesOf(before, SectionAt(before).value, Named(line).value) == []
    then Rewritten(line, Named(line).value, Wanted(us)[(SectionAt(before).value, Named(line).value)])
    else line
  }

  function InPlace(us: seq<Update>, lines: seq<string>): (r: seq<string>)
    ensures |r| == |lines|
  {
    if lines == [] then []
    else
      var n := |lines| - 1;
      InPlace(us, lines[..n]) + [InPlaceLine(us, lines[..n], lines[n])]
  }

  lemma UniqueInit(lines: seq<string>)
    requires lines != [] && UniqueSections(lines)
    ensures UniqueSections(lines[..|lines| - 1])
    ensures SectionOf(lines[|lines| - 1]).Some? ==> SectionOf(lines[|lines| - 1]).value !in Headers(lines[..|lines| - 1])
  {
    var n := |lines| - 1;
    assert lines == lines[..n] + [lines[n]];
    UniquePrefix(lines[..n], lines[n]);
    Extend(lines[..n], lines[n]);
    var hs, all := Headers(lines[..n]), Headers(lines);
    if SectionOf(lines[n]).Some? {
      forall i | 0 <= i < |hs| ensures hs[i] != SectionOf(lines[n]).value {
        assert all[i] == hs[i] && all[|hs|] == SectionOf(lines[n]).value;
      }
    }
  }

  /** A section that has ended gets no more lines. */
  lemma {:induction false} EndedSection(lines: seq<string>, i: nat, s: string, k: string)
    requires i <= |lines| && UniqueSections(lines)
    requires s in Headers(lines[..i]) && SectionAt(lines[..i]) != Some(s)
    ensures LinesOf(lines, s, k) == LinesOf(lines[..i], s, k)
    ensures s in Headers(lines) && SectionAt(lines) != Some(s)
    decreases |lines|
  {
    if i == |lines| {
      assert lines[..i] == lines;
    } else {
      var n := |lines| - 1;
      UniqueInit(lines);
      assert lines[..n][..i] == lines[..i];
      EndedSection(lines[..n], i, s, k);
    }
  }

  /** The file has every updated key. */
  ghost predicate HasAll(us: seq<Update>, lines: seq<string>) {
    forall p | p in Wanted(us) :: LinesOf(lines, p.0, p.1) != []
  }

  lemma {:induction false} UniqueTake(lines: seq<string>, i: nat)
    requires i <= |lines| && UniqueSections(lines)
    ensures UniqueSections(lines[..i])
    decreases |lines|
  {
    if i == |lines| {
      assert lines[..i] == lines;
    } else {
      UniqueInit(lines);
      assert lines[..|lines| - 1][..i] == lines[..i];
      UniqueTake(lines[..|lines| - 1], i);
    }
  }

  /** Then a pending update is one whose line is still to come. */
  lemma PendingIsAhead(us: seq<Update>, lines: seq<string>, i: nat, p: Pair)
    requires WellFormed(us) && UniqueSections(lines) && HasAll(us, lines) && i <= |lines|
    requires p in Wanted(us)
    ensures p in Fed(us, lines[..i]).pending <==> LinesOf(lines[..i], p.0, p.1) == []
  {
    UniqueTake(lines, i);
    FedTracks(us, lines[..i], p.0, p.1);
    if p !in Fed(us, lines[..i]).pending && LinesOf(lines[..i], p.0, p.1) == [] {
      EndedSection(lines, i, p.0, p.1);
    }
  }

  lemma {:induction false} NothingNew(us: seq<Update>, pending: set<Pair>, s: string)
    requires forall p | p in pending :: p.0 != s
    ensures NewLines(us, pending, s) == []
  {
    if us != [] { NothingNew(us[..|us| - 1], pending, s); }
  }

  /** No section ends with pending updates. */
  lemma NothingToFlush(us: seq<Update>, lines: seq<string>, i: nat)
    requires WellFormed(us) && UniqueSections(lines) && HasAll(us, lines) && i < |lines|
    requires SectionOf(lines[i]).Some?
    ensures Flush(us, Fed(us, lines[..i])) == Fed(us, lines[..i])
  {
    var st := Fed(us, lines[..i]);
    FedFollows(us, lines[..i]);
    FedPending(us, lines[..i]);
    if st.current.Some? {
      forall p | p in st.pending ensures p.0 != st.current.value {
        if p.0 == st.current.value { EndsHere(us, lines, i, p); }
      }
      NothingNew(us, st.pending, st.current.value);
      assert OtherSections(st.pending, st.current.value) == st.pending;
      assert st.out + [] == st.out;
    }
  }

  lemma HeaderEnds(before: seq<string>, line: string, s: string, k: string)
    requires SectionOf(line).Some? && SectionAt(before) == Some(s) && UniqueSections(before + [line])
    ensures s in Headers(before + [line]) && SectionAt(before + [line]) != Some(s)
    ensures LinesOf(before + [line], s, k) == LinesOf(before, s, k)
  {
    var all := before + [line];
    Extend(before, line);
    ExtendLinesOf(before, line, s, k);
    HeadersHave(before);
    UniqueInit(all);
    assert all[..|before|] == before;
  }

  lemma NextLine(lines: seq<string>, i: nat)
    requires i < |lines|
    ensures lines[..i + 1] == lines[..i] + [lines[i]]
  {
  }

  /** A section that ends without a key never has it. */
  lemma EndedWithout(lines: seq<string>, i: nat, s: string, k: string)
    requires UniqueSections(lines) && i < |lines| && SectionOf(lines[i]).Some? && SectionAt(lines[..i]) == Some(s)
    ensures LinesOf(lines, s, k) == LinesOf(lines[..i], s, k)
  {
    NextLine(lines, i);
    UniqueTake(lines, i + 1);
    HeaderEnds(lines[..i], lines[i], s, k);
    EndedSection(lines, i + 1, s, k);
  }

  /** The section of a pending update does not end yet. */
  lemma EndsHere(us: seq<Update>, lines: seq<string>, i: nat, p: Pair)
    requires WellFormed(us) && UniqueSections(lines) && HasAll(us, lines) && i < |lines|
    requires SectionOf(lines[i]).Some? && p in Wanted(us) && p in Fed(us, lines[..i]).pending
    ensures SectionAt(lines[..i]) != Some(p.0)
  {
    PendingIsAhead(us, lines, i, p);
    if SectionAt(lines[..i]) == Some(p.0) { EndedWithout(lines, i, p.0, p.1); }
  }

  lemma FedNext(us: seq<Update>, lines: seq<string>, line: string)
    ensures Fed(us, lines + [line]) == Feed(us, Fed(us, lines), line)
    ensures InPlace(us, lines + [line]) == InPlace(us, lines) + [InPlaceLine(us, lines, line)]
  {
    assert (lines + [line])[..|lines|] == lines;
  }

  lemma FeedInPlace(us: seq<Update>, lines: seq<string>, i: nat)
    requires WellFormed(us) && UniqueSections(lines) && HasAll(us, lines) && i < |lines|
    ensures Feed(us, Fed(us, lines[..i]), lines[i]).out
         == Fed(us, lines[..i]).out + [InPlaceLine(us, lines[..i], lines[i])]
  {
    FedFollows(us, lines[..i]);
    if SectionOf(lines[i]).Some? {
      NothingToFlush(us, lines, i);
    } else if IsUpdated(us, lines[..i], lines[i]) {
      PendingIsAhead(us, lines, i, (SectionAt(lines[..i]).value, Named(lines[i]).value));
    }
  }

  lemma FedInPlaceStep(us: seq<Update>, lines: seq<string>, i: nat)
    requires WellFormed(us) && UniqueSections(lines) && HasAll(us, lines) && i < |lines|
    requires Fed(us, lines[..i]).out == InPlace(us, lines[..i])
    ensures Fed(us, lines[..i + 1]).out == InPlace(us, lines[..i + 1])
  {
    NextLine(lines, i);
    FedNext(us, lines[..i], lines[i]);
    FeedInPlace(us, lines, i);
  }

  lemma {:induction false} FedInPlace(us: seq<Update>, lines: seq<string>, i: nat)
    requires WellFormed(us) && UniqueSections(lines) && HasAll(us, lines) && i <= |lines|
    ensures Fed(us, lines[..i]).out == InPlace(us, lines[..i])
  {
    if i > 0 {
      FedInPlace(us, lines, i - 1);
      FedInPlaceStep(us, lines, i - 1);
    }
  }

  lemma NothingAhead(us: seq<Update>, lines: seq<string>)
    requires WellFormed(us) && UniqueSections(lines) && HasAll(us, lines)
    ensures Fed(us, lines).pending == {}
  {
    assert lines[..|lines|] == lines;
    FedPending(us, lines);
    forall p | p in Fed(us, lines).pending ensures false {
      PendingIsAhead(us, lines, |lines|, p);
    }
  }

  lemma {:induction false} NoNewSections(us: seq<Update>)
    ensures NewSections(us, {}) == []
  {
    if us != [] { NoNewSections(us[..|us| - 1]); }
  }

  lemma NothingPending(us: seq<Update>, lines: seq<string>)
    requires Fed(us, lines).pending == {}
    ensures Edited(us, lines) == Fed(us, lines).out
  {
    var st := Fed(us, lines);
    NoNewSections(us);
    if st.current.Some? {
      NothingNew(us, {}, st.current.value);
      assert OtherSections({}, st.current.value) == {};
      assert st.out + [] == st.out;
    }
  }

  /** When the file has every updated key, the edit only rewrites lines in place. */
  lemma EditInPlace(us: seq<Update>, lines: seq<string>)
    requires WellFormed(us) && UniqueSections(lines) && HasAll(us, lines)
    ensures Edited(us, lines) == InPlace(us, lines)
  {
    assert lines[..|lines|] == lines;
    FedInPlace(us, lines, |lines|);
    NothingAhead(us, lines);
    NothingPending(us, lines);
  }

  /** Rewriting the line again changes nothing. */
  predicate IsFixed(line: string, k: string, v: string) {
    KeyOf(line).Some? && Rewritten(line, k, v) == line
  }

  ghost predicate AllFixed(us: seq<Update>, lines: seq<string>) {
    forall p | p in Wanted(us) && LinesOf(lines, p.0, p.1) != [] ::
      IsFixed(LinesOf(lines, p.0, p.1)[0], p.1, Wanted(us)[p])
  }

  lemma FixedLine(us: seq<Update>, before: seq<string>, line: string)
    ensures AllFixed(us, before + [line]) <==> AllFixed(us, before) && InPlaceLine(us, before, line) == line
  {
    forall p: Pair ensures LinesOf(before + [line], p.0, p.1)
                      == LinesOf(before, p.0, p.1) + if Holds(before, line, p.0, p.1) then [line] else []
    {
      ExtendLinesOf(before, line, p.0, p.1);
    }
    var all := before + [line];
    if AllFixed(us, all) {
      forall p | p in Wanted(us) && LinesOf(before, p.0, p.1) != []
        ensures IsFixed(LinesOf(before, p.0, p.1)[0], p.1, Wanted(us)[p])
      {
        assert LinesOf(all, p.0, p.1)[0] == LinesOf(before, p.0, p.1)[0];
      }
      if IsUpdated(us, before, line) {
        var p := (SectionAt(before).value, Named(line).value);
        if LinesOf(before, p.0, p.1) == [] { assert LinesOf(all, p.0, p.1) == [line]; }
      }
    }
    if AllFixed(us, before) && InPlaceLine(us, before, line) == line {
      forall p | p in Wanted(us) && LinesOf(all, p.0, p.1) != []
        ensures IsFixed(LinesOf(all, p.0, p.1)[0], p.1, Wanted(us)[p])
      {
        if LinesOf(before, p.0, p.1) == [] { assert Holds(before, line, p.0, p.1); }
      }
    }
  }

  lemma SameSnoc(a: seq<string>, x: string, b: seq<string>, y: string)
    requires |a| == |b|
    ensures a + [x] == b + [y] <==> a == b && x == y
  {
    if a + [x] == b + [y] {
      assert a == (a + [x])[..|a|] == (b + [y])[..|b|] == b;
      assert x == (a + [x])[|a|] == (b + [y])[|b|] == y;
    }
  }

  lemma {:induction false} InPlaceFixed(us: seq<Update>, lines: seq<string>)
    ensures InPlace(us, lines) == lines <==> AllFixed(us, lines)
  {
    if lines != [] {
      var before, line := lines[..|lines| - 1], lines[|lines| - 1];
      InPlaceFixed(us, before);
      FixedLine(us, before, line);
      assert lines == before + [line];
      FedNext(us, before, line);
      SameSnoc(InPlace(us, before), InPlaceLine(us, before, line), before, line);
    }
  }

  predicate HasComment(lines: seq<string>, s: string, k: string) {
    LinesOf(lines, s, k) != [] && Comment(LinesOf(lines, s, k)[0]) != ""
  }

  /** After an edit, the line of an updated key is fixed exactly when its scalar and the comment it
      had are stable. */
  lemma EditedLineFixed(us: seq<Update>, lines: seq<string>, p: Pair)
    requires WellFormed(us) && UniqueSections(lines) && p in Wanted(us)
    ensures var ls := LinesOf(Edited(us, lines), p.0, p.1);
      ls != [] && (IsFixed(ls[0], p.1, Wanted(us)[p]) <==> Stable(Wanted(us)[p], HasComment(lines, p.0, p.1)))
  {
    var v, ls := Wanted(us)[p], LinesOf(lines, p.0, p.1);
    EditIsMapUpdate(us, lines, p.0, p.1);
    LinesAreNamed(lines, p.0, p.1);
    WantedIsUpdate(us, p);
    var i :| 0 <= i < |us| && us[i] == Update(p.0, p.1, v);
    if ls == [] {
      RewriteInserted(p.1, v);
    } else {
      NamedShape(ls[0]);
      RewriteTwice(ls[0], p.1, v);
    }
  }

  /** A second run with the same updates changes nothing exactly when every scalar is stable with
      the comment of the line it went into. */
  lemma SecondRunIff(us: seq<Update>, lines: seq<string>)
    requires WellFormed(us) && UniqueSections(lines)
    ensures Edited(us, Edited(us, lines)) == Edited(us, lines)
       <==> forall p | p in Wanted(us) :: Stable(Wanted(us)[p], HasComment(lines, p.0, p.1))
  {
    var once := Edited(us, lines);
    forall p | p in Wanted(us)
      ensures LinesOf(once, p.0, p.1) != []
      ensures IsFixed(LinesOf(once, p.0, p.1)[0], p.1, Wanted(us)[p])
         <==> Stable(Wanted(us)[p], HasComment(lines, p.0, p.1))
    {
      EditedLineFixed(us, lines, p);
    }
    EditKeepsUnique(us, lines);
    EditInPlace(us, once);
    InPlaceFixed(us, once);
  }

  /** Scalars without quotes and `#`, such as numbers, true, false and null, are stable. */
  lemma PlainIsStable(v: string, hasComment: bool)
    requires '"' !in v && '\'' !in v && '#' !in v
    ensures Stable(v, hasComment)
  {
    CountAbsent(v, '"');
    CountAbsent(v, '\'');
  }

  /** A file of one section with one key. */
  lemma OneKeyFile(s: string, line: string, k: string)
    requires Identifier(s) && Named(line) == Some(k)
    ensures UniqueSections([Header(s), line]) && LinesOf([Header(s), line], s, k) == [line]
  {
    var none: seq<string> := [];
    HeaderIsSection(s);
    Extend(none, Header(s));
    ExtendLinesOf(none, Header(s), s, k);
    assert none + [Header(s)] == [Header(s)] && [Header(s)] + [line] == [Header(s), line];
    Extend([Header(s)], line);
    ExtendLinesOf([Header(s)], line, s, k);
  }

  /** The line of a key with value `v` and a comment, which brings its two spaces. */
  function Noted(k: string, v: string, comment: string): string { "  " + k + ": " + v + comment + "\n" }

  lemma NotedIs(k: string, v: string, comment: string)
    requires Identifier(k) && EvenQuotes(v) && '#' !in v && IsComment(comment) && comment != ""
    ensures Named(Noted(k, v, comment)) == Some(k) && Comment(Noted(k, v, comment)) == comment
  {
    FrontOf("  ", k);
    CommentAfterScalar("  " + k + ": ", v, comment, "\n");
    KeyRoundTrip("  ", k, " " + v + comment + "\n");
    Colon("  ", k, v, comment, "\n");
  }

  lemma OneUpdate(u: Update)
    requires Identifier(u.section) && Identifier(u.key) && NoBreaks(u.scalar)
    ensures WellFormed([u]) && Wanted([u]) == map[(u.section, u.key) := u.scalar]
  {
    assert [u][..0] == [];
  }

  lemma UnstableFile(u: Update, line: string)
    requires Identifier(u.section) && Identifier(u.key) && NoBreaks(u.scalar)
    requires Named(line) == Some(u.key) && !Stable(u.scalar, Comment(line) != "")
    ensures var us, lines := [u], [Header(u.section), line];
      WellFormed(us) && UniqueSections(lines) && Edited(us, Edited(us, lines)) != Edited(us, lines)
  {
    var lines := [Header(u.section), line];
    OneKeyFile(u.section, line, u.key);
    OneUpdate(u);
    assert (u.section, u.key) in Wanted([u]);
    SecondRunIff([u], lines);
  }

  /** Two runs differ on a file of one section with one key, whatever its comment, when the new
      scalar leaves a quote open. */
  lemma OpenQuoteDropsComment(u: Update, v: string, comment: string)
    requires Identifier(u.section) && Identifier(u.key) && NoBreaks(u.scalar) && !Stable(u.scalar, true)
    requires EvenQuotes(v) && '#' !in v && IsComment(comment) && comment != ""
    ensures var us, lines := [u], [Header(u.section), Noted(u.key, v, comment)];
      WellFormed(us) && UniqueSections(lines) && Edited(us, Edited(us, lines)) != Edited(us, lines)
  {
    NotedIs(u.key, v, comment);
    UnstableFile(u, Noted(u.key, v, comment));
  }

  /** A quoted text with an apostrophe is such a scalar. */
  lemma OddApostrophe()
    ensures !Stable("\"it's\"", true)
  {
    CountAppend("\"it", "'" + "s\"", '\'');
    CountAppend("'", "s\"", '\'');
    CountAbsent("\"it", '\'');
    CountAbsent("s\"", '\'');
    assert "\"it's\"" == "\"it" + ("'" + "s\"");
    assert CountChar("'", '\'') == 1;
  }

  lemma PlainQuotes(v: string)
    requires '"' !in v && '\'' !in v
    ensures EvenQuotes(v)
  {
    CountAbsent(v, '"');
    CountAbsent(v, '\'');
  }

  lemma SampleTexts()
    ensures Identifier("a") && Identifier("x") && NoBreaks("\"it's\"") && '#' !in "1" && EvenQuotes("1")
    ensures IsComment("  # note")
  {
    PlainQuotes("1");
    assert "  # note"[..2] == "  ";
  }

  /** So setting a text with an apostrophe over `x: 1  # note` twice is not setting it once. */
  lemma SecondRunCanDiffer(u: Update, comment: string, lines: seq<string>)
    requires u == Update("a", "x", "\"it's\"") && comment == "  # note"
    requires lines == [Header("a"), Noted("x", "1", comment)]
    ensures UniqueSections(lines) && Edited([u], Edited([u], lines)) != Edited([u], lines)
  {
    OddApostrophe();
    SampleTexts();
    OpenQuoteDropsComment(u, "1", comment);
  }
}
