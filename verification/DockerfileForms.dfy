/** What the forms of a Dockerfile mean that the printer does not write: names
    in any case, quoted and tab-stripping here-document openers, exec form,
    quoted flags, and the errors with the lines they name. */
module DockerfileForms {
  import opened Resolver
  import opened Dockerfile
  import opened DockerfilePrint

  // -------------------------------------------------------------------------
  // Lines
  // -------------------------------------------------------------------------

  /** Passed over are the lines of white space alone, and those on which a
      "#" comes first. */
  lemma {:induction false} SkippableExactly(line: string)
    ensures Skippable(line) <==> exists i :: 0 <= i <= |line| && Spaces(line[..i]) && (i == |line| || line[i] == '#')
  {
    if line != "" && IsSpace(line[0]) {
      var rest := line[1..];
      SkippableExactly(rest);
      if i :| 0 <= i <= |rest| && Spaces(rest[..i]) && (i == |rest| || rest[i] == '#') {
        assert line[..i + 1] == [line[0]] + rest[..i];
      }
      if i :| 0 <= i <= |line| && Spaces(line[..i]) && (i == |line| || line[i] == '#') {
        assert i > 0 && rest[..i - 1] == line[..i][1..];
      }
    } else {
      assert Spaces(line[..0]);
    }
  }

  /** The closing tag, but for white space behind it and, if they are
      stripped, tabs before it. */
  predicate IsClosingTag(line: string, tag: string, strip: bool) {
    var l := if strip then LStripTabs(line) else line;
    l == tag || RStrip(l) == tag
  }

  /** A body is read up to the first such line, and to none if there is none. */
  lemma {:induction false} CollectsIff(rest: seq<string>, tag: string, strip: bool)
    ensures Collect(rest, tag, strip).Some? <==> exists i :: 0 <= i < |rest| && IsClosingTag(rest[i], tag, strip)
    ensures var r := Collect(rest, tag, strip);
      r.Some? ==>
        var n := |r.value.0|;
        && n < |rest| && IsClosingTag(rest[n], tag, strip) && (forall i :: 0 <= i < n ==> !IsClosingTag(rest[i], tag, strip))
        && (forall i :: 0 <= i < n ==> r.value.0[i] == if strip then LStripTabs(rest[i]) else rest[i])
        && r.value.1 == rest[n + 1..]
  {
    hide LStripTabs, RStrip;
    if rest != [] && !IsClosingTag(rest[0], tag, strip) {
      CollectsIff(rest[1..], tag, strip);
      if i :| 0 <= i < |rest| && IsClosingTag(rest[i], tag, strip) {
        assert rest[1..][i - 1] == rest[i];
      }
    }
  }

  // -------------------------------------------------------------------------
  // Instruction names
  // -------------------------------------------------------------------------

  /** The letters of a name, each in either case. */
  predicate SpellsName(w: string, name: string) {
    |w| == |name| && forall i :: 0 <= i < |w| ==> w[i] == name[i] || w[i] as int == name[i] as int + 32
  }

  lemma SpelledIsUpper(w: string, name: string)
    requires name in INSTRUCTIONS && SpellsName(w, name)
    ensures Upper(w) == name && IsWord(w)
  {
    NamesAreCapitals(name);
    assert forall i :: 0 <= i < |w| ==> 'A' <= name[i] <= 'Z';
  }

  /** An instruction is known by its name in any case. */
  lemma NameInAnyCase(w: string, name: string, ws: seq<string>, line: nat, after: seq<string>, lib: Libraries)
    requires name in INSTRUCTIONS && name != "ONBUILD" && SpellsName(w, name) && AreWords(ws)
    ensures ParseOne(JoinSpace([w] + ws), line, after, lib) ==
      var r := ParseNamed(name, JoinSpace(ws), JoinSpace([w] + ws), line, after, lib);
      if r.Some? then Ok((Plain(r.value.0), r.value.1)) else Err(UnterminatedHeredoc)
  {
    SpelledIsUpper(w, name);
    FirstWord(w, ws);
  }

  /** What tags and flag keys are made of: letters, and from the second
      character on digits, underscores, and in a key dashes; and who may have
      here-documents. */
  lemma CharactersOfNames(c: char, name: string)
    ensures var letter := 'A' <= c <= 'Z' || 'a' <= c <= 'z';
      && (IsLetter(c) <==> letter) && (IsIdentStart(c) <==> letter || c == '_')
      && (IsIdentChar(c) <==> letter || c == '_' || '0' <= c <= '9')
      && (IsKeyChar(c) <==> IsIdentChar(c) || c == '-')
    ensures name in HEREDOC_INSTRUCTIONS <==> name in {"ADD", "COPY", "RUN"}
  {
  }

  // -------------------------------------------------------------------------
  // Openers
  // -------------------------------------------------------------------------

  predicate IsTag(tag: string) {
    tag != "" && IsIdentStart(tag[0]) && forall i :: 0 <= i < |tag| ==> IsIdentChar(tag[i])
  }

  /** An opener is two "<", perhaps a dash, and the tag, which ends where no
      more of it can follow, or stands between equal quotes. */
  lemma OpenerIsFound(strip: bool, tag: string, quote: string, rest: string)
    requires IsTag(tag) && quote in {"", "\"", "'"} && (quote == "" ==> rest == "" || !IsIdentChar(rest[0]))
    ensures Openers("<<" + (if strip then "-" else "") + quote + tag + quote + rest) == [(strip, tag)] + Openers(rest)
  {
    OpenerPrefix(strip, tag, quote, rest);
    TagEnds(tag, quote, rest);
    hide Openers, Span, IsIdentStart, IsQuote, IsTag, IsIdentChar;
    OpenedThenOn("<<" + (if strip then "-" else "") + quote + tag + quote + rest, strip, quote, tag,
                 if strip then 3 + |quote| else 2 + |quote|, rest);
  }

  lemma OpenedThenOn(s: string, strip: bool, quote: string, tag: string, q: nat, rest: string)
    requires |s| >= 3 && s[..2] == "<<" && (s[2] == '-' <==> strip)
    requires var p := if strip then 3 else 2;
      p < |s| && (IsQuote(s[p]) <==> |quote| == 1) && |quote| <= 1 && q == p + |quote| && q < |s| && (quote != "" ==> s[p] == quote[0])
    requires IsIdentStart(s[q]) && Span(s[q..], IsIdentChar) == |tag| && s[q..] == tag + (quote + rest)
    ensures Openers(s) == [(strip, tag)] + Openers(rest)
  {
    hide Openers, OpenerAt, Span, IsIdentStart, IsQuote;
    assert s[q..][..|tag|] == tag && s[q..][|tag|..] == quote + rest;
    FoundFrom(s, strip, quote, tag, q);
    Beyond(s, q, tag, quote, rest);
    OpenersUnfold(s);
  }

  lemma Beyond(s: string, q: nat, tag: string, quote: string, rest: string)
    requires q <= |s| && s[q..] == tag + (quote + rest)
    ensures q + |tag| + |quote| <= |s| && s[q + |tag| + |quote|..] == rest
  {
    assert s[q + |tag| + |quote|..] == s[q..][|tag| + |quote|..];
  }

  lemma TagEnds(tag: string, quote: string, rest: string)
    requires IsTag(tag) && quote in {"", "\"", "'"} && (quote == "" ==> rest == "" || !IsIdentChar(rest[0]))
    ensures Span(tag + (quote + rest), IsIdentChar) == |tag|
  {
    SpanOf(tag, quote + rest, IsIdentChar);
  }

  lemma FoundFrom(s: string, strip: bool, quote: string, tag: string, q: nat)
    requires |s| >= 3 && s[..2] == "<<" && (s[2] == '-' <==> strip)
    requires var p := if strip then 3 else 2;
      p < |s| && (IsQuote(s[p]) <==> |quote| == 1) && |quote| <= 1 && q == p + |quote| && q < |s| && (quote != "" ==> s[p] == quote[0])
    requires IsIdentStart(s[q]) && Span(s[q..], IsIdentChar) == |tag| && s[q..][..|tag|] == tag
    requires quote <= s[q..][|tag|..]
    ensures OpenerAt(s) == Some(Opener(strip, tag, q + |tag| + |quote|))
  {
    hide Span, IsIdentChar, IsIdentStart, IsQuote;
    assert s[q..q + |tag|] == tag;
    assert quote != "" ==> s[q..][|tag|..][0] == quote[0] && s[q + |tag|] == quote[0];
  }

  lemma OpenerPrefix(strip: bool, tag: string, quote: string, rest: string)
    requires IsTag(tag) && quote in {"", "\"", "'"}
    ensures var s := "<<" + (if strip then "-" else "") + quote + tag + quote + rest;
      && |s| >= 3 && s[..2] == "<<" && (s[2] == '-' <==> strip) && |quote| <= 1
      && var p := if strip then 3 else 2;
      && p < |s| && (IsQuote(s[p]) <==> |quote| == 1) && (quote != "" ==> s[p] == quote[0])
      && var q := p + |quote|;
      && q < |s| && IsIdentStart(s[q]) && s[q..] == tag + (quote + rest)
  {
    Onwards("<<" + (if strip then "-" else "") + quote, tag, quote + rest);
    var head := "<<" + (if strip then "-" else "") + quote;
    assert head + tag + quote + rest == head + (tag + (quote + rest));
    assert |head| == (if strip then 3 else 2) + |quote|;
  }

  /** Nothing opens a here-document but "<<". */
  lemma {:induction false} NoOpeners(s: string)
    requires forall i :: 0 <= i < |s| - 1 ==> !(s[i] == '<' && s[i + 1] == '<')
    ensures Openers(s) == []
  {
    if s != "" {
      if |s| >= 3 {
        assert s[..2][0] == s[0] && s[..2][1] == s[1];
      }
      NoOpeners(s[1..]);
    }
  }

  // -------------------------------------------------------------------------
  // Values and flags
  // -------------------------------------------------------------------------

  /** A value between brackets that is a JSON list of strings is that list;
      any other is its text. */
  lemma ValueIsRead(name: string, words: seq<string>, raw: string, line: nat, after: seq<string>, lib: Libraries)
    requires AreWords(words) && words != [] && FlagAt(JoinSpace(words)).None? && name !in HEREDOC_INSTRUCTIONS
    ensures var text := JoinSpace(words);
      ParseNamed(name, text, raw, line, after, lib) ==
        Some((Instr(name, map[], if words[0][0] == '[' && text[|text| - 1] == ']' && lib.json(text).Some? then Exec(lib.json(text).value) else Shell(text),
                    [], line, raw), after))
  {
    JoinEnds(words);
    StripJoin("", words, "");
    assert "" + JoinSpace(words) + "" == JoinSpace(words);
  }

  /** A flag whose value starts with a quote has the value shlex makes of it,
      and ends where shlex stopped; if shlex can make nothing of it, the
      value is what stands there up to the next white space. */
  lemma QuotedFlagIsRead(key: string, quoted: string, rest: string, lib: Libraries)
    requires key != "" && IsLetter(key[0]) && (forall i :: 0 <= i < |key| ==> IsKeyChar(key[i]))
    requires quoted != "" && IsQuote(quoted[0]) && (forall i :: 0 <= i < |quoted| ==> !IsSpace(quoted[i])) && (rest == "" || IsSpace(rest[0]))
    ensures var r := lib.shlex(quoted + rest);
      var (val, left) := if r.None? then (quoted, rest) else (r.value.0, if r.value.1 <= |quoted + rest| then (quoted + rest)[r.value.1..] else "");
      ParseFlags("--" + key + "=" + quoted + rest, lib) == (map[key := val] + ParseFlags(left, lib).0, ParseFlags(left, lib).1)
  {
    hide *;
    var head := "--" + key + "=";
    QuotedFlagIsFound(key, quoted, rest);
    Onwards(head, quoted, rest);
    QuotedFlagOn(head + quoted + rest, key, 2 + |key| + 1, quoted, rest, lib);
  }

  lemma Onwards(a: string, b: string, c: string)
    ensures a + b + c == a + (b + c) && (a + (b + c))[|a|..] == b + c && (a + (b + c))[|a|..][..|b|] == b && (a + (b + c))[|a|..][|b|..] == c
  {
  }

  lemma QuotedFlagOn(text: string, key: string, at: nat, quoted: string, rest: string, lib: Libraries)
    requires quoted != "" && IsQuote(quoted[0]) && 0 < at <= |text| && text[at..] == quoted + rest
    requires FlagAt(text) == Some(Flag(key, Some(quoted), at + |quoted|))
    ensures var r := lib.shlex(quoted + rest);
      var (val, left) := if r.None? then (quoted, rest) else (r.value.0, if r.value.1 <= |quoted + rest| then (quoted + rest)[r.value.1..] else "");
      ParseFlags(text, lib) == (map[key := val] + ParseFlags(left, lib).0, ParseFlags(left, lib).1)
  {
    hide ParseFlags, IsQuote, FlagAt, From;
    assert text[at + |quoted|..] == text[at..][|quoted|..] == rest;
    FlagsUnfold(text, lib);
    var r := lib.shlex(quoted + rest);
    if r.Some? {
      FromTail(text, at, quoted + rest, r.value.1);
    }
  }

  lemma FromTail(text: string, at: nat, tail: string, n: nat)
    requires at <= |text| && text[at..] == tail
    ensures From(text, at + n) == if n <= |tail| then tail[n..] else ""
  {
    if n <= |tail| {
      assert text[at + n..] == tail[n..];
    }
  }

  lemma FlagsUnfold(text: string, lib: Libraries)
    requires FlagAt(text).Some?
    ensures var f := FlagAt(text).value;
      var (val, rest) := Took(text, f, lib);
      ParseFlags(text, lib) == (map[f.key := val] + ParseFlags(rest, lib).0, ParseFlags(rest, lib).1)
  {
  }

  lemma QuotedFlagIsFound(key: string, quoted: string, rest: string)
    requires key != "" && IsLetter(key[0]) && (forall i :: 0 <= i < |key| ==> IsKeyChar(key[i]))
    requires quoted != "" && (forall i :: 0 <= i < |quoted| ==> !IsSpace(quoted[i])) && (rest == "" || IsSpace(rest[0]))
    ensures FlagAt("--" + key + "=" + quoted + rest) == Some(Flag(key, Some(quoted), 2 + |key| + 1 + |quoted|))
  {
    var text, tail := "--" + key + "=" + quoted + rest, "=" + (quoted + rest);
    assert tail[0] == '=' && tail[1..] == quoted + rest;
    EqualsEndsKey();
    SpanOf(key, tail, IsKeyChar);
    SpanOf(quoted, rest, NotSpace);
    hide *;
    assert text == "--" + (key + tail);
    DashesFirst(text, key, tail);
    FlagAtStart(text, key, tail, quoted, rest);
    AtOnce(text);
  }

  lemma FlagAtStart(text: string, key: string, tail: string, val: string, rest: string)
    requires |text| >= 3 && text[..2] == "--" && text[2..] == key + tail && IsLetter(text[2])
    requires tail != "" && tail[0] == '=' && tail[1..] == val + rest
    requires Span(key + tail, IsKeyChar) == |key| && Span(val + rest, NotSpace) == |val|
    ensures FlagIn(text) == Some(Flag(key, Some(val), 2 + |key| + 1 + |val|))
  {
    EqualsEndsKey();
    hide Span, IsSpace, IsLetter, FlagIn;
    PartsOfFlag(text, key, tail, val, rest);
    FlagInParts(text, key, val);
  }

  lemma PartsOfFlag(text: string, key: string, tail: string, val: string, rest: string)
    requires |text| >= 2 && text[2..] == key + tail && tail != "" && tail[0] == '=' && tail[1..] == val + rest
    ensures var n := 2 + |key|;
      && n < |text| && text[n] == '=' && text[2..n] == key
      && text[n + 1..] == val + rest && n + 1 + |val| <= |text| && text[n + 1..n + 1 + |val|] == val
  {
    KeyThenTail(text, key, tail);
    TailFrom(text, 2 + |key|, tail, val, rest);
  }

  lemma TailFrom(text: string, n: nat, tail: string, val: string, rest: string)
    requires n < |text| && text[n..] == tail && tail[1..] == val + rest
    ensures text[n + 1..] == val + rest && n + 1 + |val| <= |text| && text[n + 1..n + 1 + |val|] == val
  {
    assert text[n + 1..] == text[n..][1..];
    assert text[n + 1..][..|val|] == val;
  }

  /** No white space to get past first. */
  lemma AtOnce(text: string)
    requires LStrip(text) == text
    ensures FlagAt(text) == FlagIn(text)
  {
    hide LStrip, FlagIn;
  }

  lemma DashesFirst(text: string, key: string, tail: string)
    requires key != "" && text == "--" + (key + tail)
    ensures |text| >= 3 && text[..2] == "--" && text[2..] == key + tail && text[2] == key[0] && LStrip(text) == text
  {
    EqualsEndsKey();
  }

  lemma FlagInParts(text: string, key: string, val: string)
    requires |text| >= 3 && text[..2] == "--" && IsLetter(text[2]) && Span(text[2..], IsKeyChar) == |key|
    requires var n := 2 + |key|;
      && n < |text| && text[n] == '=' && text[2..n] == key && !IsSpace('=')
      && Span(text[n + 1..], NotSpace) == |val| && n + 1 + |val| <= |text| && text[n + 1..n + 1 + |val|] == val
    ensures FlagIn(text) == Some(Flag(key, Some(val), 2 + |key| + 1 + |val|))
  {
    hide Span, IsSpace, IsKeyChar, IsLetter;
  }

  lemma EqualsEndsKey()
    ensures !IsKeyChar('=') && !IsSpace('=') && !IsSpace('-')
  {
  }

  // -------------------------------------------------------------------------
  // Errors
  // -------------------------------------------------------------------------

  /** Everything up to a place in the file is read, whatever follows. */
  lemma {:induction false} ReadUpTo(xs: seq<Item>, tail: seq<string>, total: nat, esc: char, lib: Libraries)
    requires AllRead(xs, esc, lib) && OneDocAtMost(xs) && |Print(xs, esc) + tail| <= total
    ensures Parse(Print(xs, esc) + tail, total, esc, lib) ==
      Prepended(Records(xs, total - |Print(xs, esc) + tail|, esc), Parse(tail, total, esc, lib))
    decreases |xs|
  {
    hide AllRead, Parse, Prepended, OneDocAtMost, IsRead, StepIs, RecordOf, Body;
    if xs == [] {
      TailOnly(tail, esc);
      NothingPrepended(Parse(tail, total, esc, lib));
    } else {
      var x, more := xs[0], xs[1..];
      assert xs == [x] + more;
      AllReadRest(x, more, esc, lib);
      hide *;
      OneRead(x, more, tail, total, esc, lib);
      RecordsFirst(x, more, total - |Print(xs, esc) + tail|, esc);
      ReadUpTo(more, tail, total, esc, lib);
      PrependedTwice([RecordOf(x, total - |Print(xs, esc) + tail| + |x.before| + 1)],
                     Records(more, total - |Print(more, esc) + tail|, esc), Parse(tail, total, esc, lib));
    }
  }

  lemma OneRead(x: Item, more: seq<Item>, tail: seq<string>, total: nat, esc: char, lib: Libraries)
    requires IsRead(x, esc, lib) && |x.docs| <= 1 && |Print([x] + more, esc) + tail| <= total
    ensures var lines, post := Print([x] + more, esc) + tail, Print(more, esc) + tail;
      && |lines| == |x.before| + |Body(x, esc)| + |post|
      && Parse(lines, total, esc, lib) == Prepended([RecordOf(x, total - |lines| + |x.before| + 1)], Parse(post, total, esc, lib))
  {
    hide Parse, Print, Body, RecordOf, AllSkippable, StepIs, ParseStep;
    var post := Print(more, esc) + tail;
    var rest := Body(x, esc) + post;
    PrintFirst(x, more, tail, esc);
    SkipBefore(x.before, rest, total, esc, lib);
    assert StepIs(x, esc, post, total - |rest| + 1, lib);
    StepGives(x, esc, post, total - |rest| + 1, lib);
    ParseUnfold(rest, total, esc, lib);
  }

  lemma StepGives(x: Item, esc: char, post: seq<string>, line: nat, lib: Libraries)
    requires Body(x, esc) != [] && StepIs(x, esc, post, line, lib) && |x.docs| <= 1
    ensures ParseStep(Body(x, esc) + post, line, esc, lib) == Ok(([RecordOf(x, line)], post))
  {
  }

  lemma NothingPrepended(r: Result<seq<Record>>)
    ensures Prepended([], r) == r
  {
    if r.Ok? {
      assert [] + r.value == r.value;
    }
  }

  lemma PrependedTwice(a: seq<Record>, b: seq<Record>, r: Result<seq<Record>>)
    ensures Prepended(a, Prepended(b, r)) == Prepended(a + b, r)
  {
    if r.Ok? {
      assert a + (b + r.value) == a + b + r.value;
    }
  }

  /** What is wrong with an instruction of these words, on this line. */
  function WrongWith(ws: seq<string>, line: nat): Option<Error>
    requires ws != []
  {
    if Upper(ws[0]) !in INSTRUCTIONS then Some(UnknownInstruction(line))
    else if Upper(ws[0]) != "ONBUILD" then None
    else if |ws| == 1 then Some(OnBuildWithoutInner(line))
    else if Upper(ws[1]) !in INSTRUCTIONS || Upper(ws[1]) == "ONBUILD" then Some(InvalidInner(line))
    else None
  }

  lemma WrongWords(ws: seq<string>, line: nat, after: seq<string>, lib: Libraries)
    requires AreWords(ws) && ws != [] && WrongWith(ws, line).Some?
    ensures ParseOne(JoinSpace(ws), line, after, lib) == Err(WrongWith(ws, line).value)
  {
    HoldsJoined(ws);
    SplitWords(ws, JoinSpace(ws));
    if |ws| > 1 {
      HoldsJoined(ws[1..]);
      SplitWords(ws[1..], JoinSpace(ws[1..]));
    } else {
      assert JoinSpace(ws[1..]) == "";
      assert SplitFirst("").0 == "";
    }
  }

  /** An instruction that is none ends the parse with an error that names the
      line it starts on, however much was read before it. */
  lemma ErrorNamesItsLine(xs: seq<Item>, gap: seq<string>, segs: seq<Seg>, post: seq<string>, esc: char, lib: Libraries)
    requires AllNormal(xs, esc) && OneDocAtMost(xs) && IsEscape(esc) && AllSkippable(gap) && IsLayout(segs, esc) && AllWords(segs) != []
    requires WrongWith(AllWords(segs), |Print(xs, esc)| + |gap| + 1).Some?
    ensures var lines := Print(xs, esc) + (gap + (SegLines(segs, esc) + post));
      Parse(lines, |lines|, esc, lib) == Err(WrongWith(AllWords(segs), |Print(xs, esc)| + |gap| + 1).value)
  {
    var bad := SegLines(segs, esc) + post;
    var lines := Print(xs, esc) + (gap + bad);
    var line := |Print(xs, esc)| + |gap| + 1;
    hide AllNormal, AllRead, Parse, Print, Records, SegLines, WrongWith, AllWords, ParseStep, AllSkippable, OneDocAtMost;
    NormalFormsAreRead(xs, esc, lib);
    ReadUpTo(xs, gap + bad, |lines|, esc, lib);
    SkipBefore(gap, bad, |lines|, esc, lib);
    LogicalLineComesBack(segs, esc, post);
    assert bad != [];
    LineIsRead(segs, esc, post, line, lib);
    WrongWords(AllWords(segs), line, post, lib);
    ParseUnfold(bad, |lines|, esc, lib);
    assert |lines| - |bad| + 1 == line;
  }
}
