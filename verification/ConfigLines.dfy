/** Single lines of the configuration file (config_loader.py): how a line is recognised as a
    section or a key, and how a key line is rewritten. Word characters are those of ASCII.  */
module ConfigLines {
  import opened Wrappers
  import opened Text

  predicate StartsWord(c: char) { 'A' <= c <= 'Z' || 'a' <= c <= 'z' || c == '_' }

  predicate InWord(c: char) { StartsWord(c) || IsDigit(c) }

  function BlankLen(s: string): (n: nat)
    ensures n <= |s|
  {
    if s != [] && IsBlank(s[0]) then 1 + BlankLen(s[1..]) else 0
  }

  function WordLen(s: string): (n: nat)
    ensures n <= |s|
  {
    if s != [] && InWord(s[0]) then 1 + WordLen(s[1..]) else 0
  }

  /** Indentation and name of a line that starts like `name:`, whatever follows. */
  function KeyOf(line: string): Option<(string, string)> {
    var i := BlankLen(line);
    var n := WordLen(line[i..]);
    var rest := line[i + n..];
    var j := BlankLen(rest);
    if n > 0 && StartsWord(line[i]) && j < |rest| && rest[j] == ':' then Some((line[..i], line[i..i + n])) else None
  }

  /** The section a line opens: a name at the very start of the line. */
  function SectionOf(line: string): Option<string> {
    var stripped := StripLeft(line);
    if stripped != "" && stripped[0] != '#' && line[0] !in {' ', '\t'}
       && KeyOf(line).Some? && KeyOf(line).value.0 == ""
    then Some(KeyOf(line).value.1)
    else None
  }

  predicate Identifier(s: string) {
    s != "" && StartsWord(s[0]) && forall i | 0 <= i < |s| :: InWord(s[i])
  }

  predicate Blank(s: string) { forall i | 0 <= i < |s| :: IsBlank(s[i]) }

  lemma {:induction false} BlankPrefix(s: string, rest: string)
    requires Blank(s) && (rest == "" || !IsBlank(rest[0]))
    ensures BlankLen(s + rest) == |s|
  {
    if s == "" {
      assert s + rest == rest;
    } else {
      assert (s + rest)[1..] == s[1..] + rest;
      BlankPrefix(s[1..], rest);
    }
  }

  lemma {:induction false} WordPrefix(s: string, rest: string)
    requires (forall i | 0 <= i < |s| :: InWord(s[i])) && (rest == "" || !InWord(rest[0]))
    ensures WordLen(s + rest) == |s|
  {
    if s == "" {
      assert s + rest == rest;
    } else {
      assert (s + rest)[1..] == s[1..] + rest;
      WordPrefix(s[1..], rest);
    }
  }

  lemma KeyParse(indent: string, name: string, tail: string)
    requires Blank(indent) && Identifier(name) && tail != "" && tail[0] == ':'
    ensures KeyOf(indent + (name + tail)) == Some((indent, name))
  {
    var line := indent + (name + tail);
    BlankPrefix(indent, name + tail);
    WordPrefix(name, tail);
    assert line[|indent|..] == name + tail;
    assert line[|indent| + |name|..] == tail;
    assert line[..|indent|] == indent && line[|indent|..|indent| + |name|] == name;
  }

  lemma SectionParse(line: string, indent: string, name: string)
    requires KeyOf(line) == Some((indent, name)) && indent <= line
    requires indent == "" ==> name != "" && name <= line && StartsWord(name[0])
    ensures SectionOf(line) == if indent == "" then Some(name) else None
  {
    if indent == "" {
      assert line[0] == name[0];
      assert StripLeft(line) == line;
    }
  }

  /** Indentation, name and colon are read back as written. */
  lemma KeyRoundTrip(indent: string, name: string, rest: string)
    requires Blank(indent) && Identifier(name)
    ensures KeyOf(indent + name + ":" + rest) == Some((indent, name))
    ensures SectionOf(indent + name + ":" + rest) == if indent == "" then Some(name) else None
  {
    var line := indent + name + ":" + rest;
    assert line == indent + (name + (":" + rest));
    KeyParse(indent, name, ":" + rest);
    SectionParse(line, indent, name);
  }

  lemma {:induction false} BlankStart(s: string)
    ensures Blank(s[..BlankLen(s)])
    ensures BlankLen(s) < |s| ==> !IsBlank(s[BlankLen(s)])
  {
    if s != [] && IsBlank(s[0]) {
      BlankStart(s[1..]);
      assert s[..BlankLen(s)] == [s[0]] + s[1..][..BlankLen(s[1..])];
    }
  }

  lemma {:induction false} WordStart(s: string)
    ensures forall i | 0 <= i < WordLen(s) :: InWord(s[i])
  {
    if s != [] && InWord(s[0]) { WordStart(s[1..]); }
  }

  /** What `KeyOf` finds is an indentation and a name; a key line that opens no section is
      indented. */
  lemma KeyShape(line: string)
    requires KeyOf(line).Some?
    ensures Blank(KeyOf(line).value.0) && Identifier(KeyOf(line).value.1)
    ensures SectionOf(line).None? ==> KeyOf(line).value.0 != ""
  {
    var i := BlankLen(line);
    BlankStart(line);
    WordStart(line[i..]);
    if i == 0 {
      assert StripLeft(line) == line;
      assert line[..0] == "";
    }
  }

  // ---- rewriting --------------------------------------------------------------------------------

  function CountChar(s: string, c: char): nat {
    if s == [] then 0 else CountChar(s[..|s| - 1], c) + if s[|s| - 1] == c then 1 else 0
  }

  predicate EvenQuotes(s: string) { CountChar(s, '"') % 2 == 0 && CountChar(s, '\'') % 2 == 0 }

  predicate IsBreak(c: char) { c == '\r' || c == '\n' }

  function TrimBreaks(s: string): string {
    if s != [] && IsBreak(s[|s| - 1]) then TrimBreaks(s[..|s| - 1]) else s
  }

  /** The comment that is kept: from the first `#`, unless a quote is open before it. */
  function Comment(line: string): string {
    var h := Find(line, '#');
    if h < |line| && EvenQuotes(line[..h]) then "  " + TrimBreaks(line[h..]) else ""
  }

  function Eol(line: string): string {
    if |line| >= 2 && line[|line| - 2..] == "\r\n" then "\r\n" else "\n"
  }

  function Rewritten(line: string, key: string, scalar: string): string
    requires KeyOf(line).Some?
  {
    KeyOf(line).value.0 + key + ": " + scalar + Comment(line) + Eol(line)
  }

  function Inserted(key: string, scalar: string): string { "  " + key + ": " + scalar + "\n" }

  function Header(section: string): string { section + ":\n" }

  lemma Colon(indent: string, key: string, a: string, b: string, c: string)
    ensures indent + key + ": " + a + b + c == indent + key + ":" + (" " + a + b + c)
  {
    assert indent + key + ": " == indent + key + ":" + " ";
  }

  lemma RewrittenIsKey(line: string, key: string, scalar: string)
    requires KeyOf(line).Some? && KeyOf(line).value.1 == key && SectionOf(line).None?
    ensures KeyOf(Rewritten(line, key, scalar)) == KeyOf(line)
    ensures SectionOf(Rewritten(line, key, scalar)) == None
  {
    var indent := KeyOf(line).value.0;
    KeyShape(line);
    KeyRoundTrip(indent, key, " " + scalar + Comment(line) + Eol(line));
    Colon(indent, key, scalar, Comment(line), Eol(line));
  }

  lemma InsertedIsKey(key: string, scalar: string)
    requires Identifier(key)
    ensures KeyOf(Inserted(key, scalar)) == Some(("  ", key))
    ensures SectionOf(Inserted(key, scalar)) == None
  {
    KeyRoundTrip("  ", key, " " + scalar + "\n");
    assert Inserted(key, scalar) == "  " + key + ":" + (" " + scalar + "\n");
  }

  /** The text after the colon of a key line. */
  function ValueText(line: string): string {
    var i := Find(line, ':');
    if i < |line| then line[i + 1..] else ""
  }

  lemma ValueAfter(indent: string, key: string, rest: string)
    requires Blank(indent) && Identifier(key)
    ensures ValueText(indent + key + ":" + rest) == rest
  {
    forall i | 0 <= i < |indent| ensures indent[i] != ':' { assert IsBlank(indent[i]); }
    forall i | 0 <= i < |key| ensures key[i] != ':' { assert InWord(key[i]); }
    assert indent + key + ":" + rest == (indent + key) + (":" + rest);
    FindAfter(indent + key, ":" + rest, ':');
  }

  /** A written line reads as the new scalar, followed by the kept comment. */
  lemma RewrittenReads(line: string, key: string, scalar: string)
    requires KeyOf(line).Some? && KeyOf(line).value.1 == key
    ensures ValueText(Rewritten(line, key, scalar)) == " " + scalar + Comment(line) + Eol(line)
  {
    var indent := KeyOf(line).value.0;
    KeyShape(line);
    ValueAfter(indent, key, " " + scalar + Comment(line) + Eol(line));
    Colon(indent, key, scalar, Comment(line), Eol(line));
  }

  lemma InsertedReads(key: string, scalar: string)
    requires Identifier(key)
    ensures ValueText(Inserted(key, scalar)) == " " + scalar + "\n"
  {
    ValueAfter("  ", key, " " + scalar + "\n");
    assert Inserted(key, scalar) == "  " + key + ":" + (" " + scalar + "\n");
  }

  lemma HeaderIsSection(section: string)
    requires Identifier(section)
    ensures SectionOf(Header(section)) == Some(section)
  {
    KeyRoundTrip("", section, "\n");
    assert Header(section) == "" + section + ":" + "\n";
  }

  lemma EmptyLineIsNothing()
    ensures KeyOf("\n") == None && SectionOf("\n") == None
  {
    assert BlankLen("\n") == 1;
  }

  // ---- rewriting twice --------------------------------------------------------------------------

  predicate NoBreaks(s: string) { forall i | 0 <= i < |s| :: !IsBreak(s[i]) }

  /** When a line written with this scalar is written the same again: if there is a `#` in the
      scalar, a quote must be open before it and there must be no comment; otherwise a comment
      must not follow an open quote. */
  predicate Stable(scalar: string, hasComment: bool) {
    if '#' in scalar then !EvenQuotes(scalar[..Find(scalar, '#')]) && !hasComment
    else !hasComment || EvenQuotes(scalar)
  }

  lemma {:induction false} CountAppend(a: string, b: string, c: char)
    ensures CountChar(a + b, c) == CountChar(a, c) + CountChar(b, c)
  {
    if b == [] {
      assert a + b == a;
    } else {
      assert (a + b)[..|a + b| - 1] == a + b[..|b| - 1];
      CountAppend(a, b[..|b| - 1], c);
    }
  }

  lemma {:induction false} CountAbsent(a: string, c: char)
    requires c !in a
    ensures CountChar(a, c) == 0
  {
    if a != [] { CountAbsent(a[..|a| - 1], c); }
  }

  lemma QuoteParity(a: string, b: string)
    requires '"' !in a && '\'' !in a
    ensures EvenQuotes(a + b) == EvenQuotes(b) && EvenQuotes(b + a) == EvenQuotes(b)
  {
    CountAppend(a, b, '"');
    CountAppend(a, b, '\'');
    CountAppend(b, a, '"');
    CountAppend(b, a, '\'');
    CountAbsent(a, '"');
    CountAbsent(a, '\'');
  }

  lemma {:induction false} FindAfter(a: string, b: string, c: char)
    requires c !in a
    ensures Find(a + b, c) == |a| + Find(b, c)
  {
    if a == [] {
      assert a + b == b;
    } else {
      assert (a + b)[1..] == a[1..] + b;
      FindAfter(a[1..], b, c);
    }
  }

  lemma {:induction false} TrimBreaksEnd(s: string)
    ensures TrimBreaks(s) <= s && (TrimBreaks(s) == "" || !IsBreak(TrimBreaks(s)[|TrimBreaks(s)| - 1]))
  {
    if s != [] && IsBreak(s[|s| - 1]) { TrimBreaksEnd(s[..|s| - 1]); }
  }

  /** Neither empty nor ending in a line break. */
  predicate EndsInText(s: string) { s != "" && !IsBreak(s[|s| - 1]) }

  predicate IsEol(e: string) { e == "\n" || e == "\r\n" }

  lemma TrimEol(s: string, e: string)
    requires EndsInText(s) && IsEol(e)
    ensures TrimBreaks(s + e) == s && Eol(s + e) == e
  {
    var t := s + e;
    if e == "\r\n" {
      assert t[..|t| - 1] == s + "\r";
      assert (s + "\r")[..|s|] == s;
      assert TrimBreaks(s + "\r") == TrimBreaks(s);
      assert t[|t| - 2..] == "\r\n";
    } else {
      assert t[..|t| - 1] == s;
      assert t[|t| - 2] == s[|s| - 1];
    }
  }

  lemma CommentShape(line: string)
    ensures IsComment(Comment(line))
  {
    var h := Find(line, '#');
    if h < |line| {
      TrimBreaksEnd(line[h..]);
      HashStays(line[h..]);
    }
  }

  lemma {:induction false} HashStays(s: string)
    requires s != "" && s[0] == '#'
    ensures TrimBreaks(s) != "" && TrimBreaks(s)[0] == '#'
  {
    if IsBreak(s[|s| - 1]) { HashStays(s[..|s| - 1]); }
  }

  /** The front of a written line: no quote and no `#` before the scalar. */
  predicate Front(a: string) { '"' !in a && '\'' !in a && '#' !in a && EndsInText(a) }

  lemma FrontOf(indent: string, key: string)
    requires Blank(indent) && Identifier(key)
    ensures Front(indent + key + ": ")
  {
    forall i | 0 <= i < |indent| ensures indent[i] !in {'"', '\'', '#'} { assert IsBlank(indent[i]); }
    forall i | 0 <= i < |key| ensures key[i] !in {'"', '\'', '#'} { assert InWord(key[i]); }
  }

  lemma CommentAt(front: string, tail: string, e: string)
    requires '#' !in front && EndsInText(tail) && tail[0] == '#' && IsEol(e)
    ensures Comment(front + (tail + e)) == if EvenQuotes(front) then "  " + tail else ""
  {
    var line := front + (tail + e);
    FindAfter(front, tail + e, '#');
    assert line[..|front|] == front && line[|front|..] == tail + e;
    TrimEol(tail, e);
  }

  ghost predicate IsComment(c: string) {
    c == "" || (|c| > 2 && c[..2] == "  " && c[2] == '#' && EndsInText(c))
  }

  lemma Regroup(a: string, p: string, q: string, c: string, e: string)
    ensures a + (p + q) + c + e == (a + p) + ((q + c) + e)
  {
  }

  /** The comment that a second rewrite finds: it begins in the scalar. */
  lemma CommentInScalar(a: string, v: string, c: string, e: string)
    requires Front(a) && NoBreaks(v) && IsEol(e) && '#' in v && IsComment(c)
    ensures var f := Find(v, '#');
      Comment(a + v + c + e) == if EvenQuotes(v[..f]) then "  " + (v[f..] + c) else ""
  {
    var f := Find(v, '#');
    var front, tail := a + v[..f], v[f..] + c;
    assert v == v[..f] + v[f..];
    Regroup(a, v[..f], v[f..], c, e);
    QuoteParity(a, v[..f]);
    assert EndsInText(tail);
    CommentAt(front, tail, e);
  }

  /** It begins after the scalar. */
  lemma CommentAfterScalar(a: string, v: string, c: string, e: string)
    requires Front(a) && IsEol(e) && '#' !in v && IsComment(c) && c != ""
    ensures Comment(a + v + c + e) == if EvenQuotes(v) then c else ""
  {
    var front, tail := a + (v + "  "), c[2..];
    assert c == "  " + tail;
    assert a + v + c + e == front + (tail + e);
    QuoteParity(a, v + "  ");
    QuoteParity("  ", v);
    CommentAt(front, tail, e);
  }

  /** There is none. */
  lemma NoComment(a: string, v: string, e: string)
    requires Front(a) && IsEol(e) && '#' !in v
    ensures Comment(a + v + "" + e) == ""
  {
    assert '#' !in a + v + "" + e;
  }

  /** A second rewrite finds the same comment exactly when scalar and comment are stable. */
  lemma CommentAgain(a: string, v: string, c: string, e: string)
    requires Front(a) && NoBreaks(v) && IsEol(e) && IsComment(c)
    ensures Comment(a + v + c + e) == c <==> Stable(v, c != "")
    ensures Comment(a + v + c + e) != c ==> |Comment(a + v + c + e)| != |c|
  {
    if '#' in v {
      CommentInScalar(a, v, c, e);
    } else if c == "" {
      NoComment(a, v, e);
    } else {
      CommentAfterScalar(a, v, c, e);
    }
  }

  /** A line that was written with a scalar is left alone by writing it again with the same
      scalar exactly when the scalar and the comment are stable together. */
  lemma WrittenAgain(indent: string, key: string, v: string, c: string, e: string)
    requires Blank(indent) && Identifier(key) && NoBreaks(v) && IsEol(e)
    requires IsComment(c)
    ensures var line := indent + key + ": " + v + c + e;
      && KeyOf(line) == Some((indent, key))
      && (Rewritten(line, key, v) == line <==> Stable(v, c != ""))
  {
    var a := indent + key + ": ";
    var line := a + v + c + e;
    WrittenIsKey(indent, key, v, c, e);
    FrontOf(indent, key);
    CommentAgain(a, v, c, e);
    TrimEol(a + v + c, e);
    var again := a + v + Comment(line) + e;
    assert Rewritten(line, key, v) == again;
    assert |again| == |line| - |c| + |Comment(line)|;
  }

  lemma WrittenIsKey(indent: string, key: string, v: string, c: string, e: string)
    requires Blank(indent) && Identifier(key)
    ensures KeyOf(indent + key + ": " + v + c + e) == Some((indent, key))
  {
    var rest := " " + v + c + e;
    KeyRoundTrip(indent, key, rest);
    assert indent + key + ": " + v + c + e == indent + key + ":" + rest;
  }

  lemma EolIsEol(line: string)
    ensures IsEol(Eol(line))
  {
  }

  /** Rewriting a line twice with one scalar. */
  lemma RewriteTwice(line: string, key: string, v: string)
    requires KeyOf(line).Some? && KeyOf(line).value.1 == key && SectionOf(line).None? && NoBreaks(v)
    ensures KeyOf(Rewritten(line, key, v)).Some?
    ensures Rewritten(Rewritten(line, key, v), key, v) == Rewritten(line, key, v) <==> Stable(v, Comment(line) != "")
  {
    KeyShape(line);
    CommentShape(line);
    EolIsEol(line);
    WrittenAgain(KeyOf(line).value.0, key, v, Comment(line), Eol(line));
  }

  /** Rewriting an inserted line. */
  lemma RewriteInserted(key: string, v: string)
    requires Identifier(key) && NoBreaks(v)
    ensures KeyOf(Inserted(key, v)).Some?
    ensures Rewritten(Inserted(key, v), key, v) == Inserted(key, v) <==> Stable(v, false)
  {
    WrittenAgain("  ", key, v, "", "\n");
    assert Inserted(key, v) == "  " + key + ": " + v + "" + "\n";
  }
}
