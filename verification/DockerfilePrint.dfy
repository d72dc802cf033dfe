/** Printing Dockerfile instructions and reading them back: what comes out is
    what went in, for every layout, exactly when no instruction has more than
    one here-document. */
module DockerfilePrint {
  import opened Resolver
  import opened Dockerfile

  // -------------------------------------------------------------------------
  // A normal form, and its many spellings
  // -------------------------------------------------------------------------

  datatype FlagSpec = FlagSpec(key: string, val: Option<string>)

  /** A here-document: its lines, the tabs each is indented by, and those
      before the closing tag. */
  datatype Doc = Doc(tag: string, strip: bool, lines: seq<string>, tabs: seq<string>, close: string)

  /** One physical line of an instruction: some of its words, and, unless it is
      the last, what follows the escape and the blank and comment lines before
      the next. */
  datatype Seg = Seg(indent: string, words: seq<string>, pad: string, gap: seq<string>)

  /** before: blank and comment lines. segs: how the words are laid out. */
  datatype Item = Item(before: seq<string>, onBuild: bool, name: string, flags: seq<FlagSpec>, tokens: seq<string>,
                       docs: seq<Doc>, segs: seq<Seg>)

  function FlagWord(f: FlagSpec): string {
    "--" + f.key + if f.val.Some? then "=" + f.val.value else ""
  }

  function FlagWords(fs: seq<FlagSpec>): seq<string> {
    if fs == [] then [] else [FlagWord(fs[0])] + FlagWords(fs[1..])
  }

  /** The instruction's words, however they are laid out. */
  function Head(x: Item): seq<string> {
    var inner := [x.name] + (FlagWords(x.flags) + x.tokens);
    if x.onBuild then ["ONBUILD"] + inner else inner
  }

  function AllWords(segs: seq<Seg>): seq<string> {
    if segs == [] then [] else segs[0].words + AllWords(segs[1..])
  }

  function SegLines(segs: seq<Seg>, esc: char): seq<string> {
    if segs == [] then []
    else
      var line := segs[0].indent + JoinSpace(segs[0].words);
      if |segs| == 1 then [line] else [line + (" " + [esc] + segs[0].pad)] + (segs[0].gap + SegLines(segs[1..], esc))
  }

  function Indented(d: Doc): (r: seq<string>)
    ensures |r| == |d.lines|
  {
    seq(|d.lines|, i requires 0 <= i < |d.lines| => (if i < |d.tabs| then d.tabs[i] else "") + d.lines[i])
  }

  function DocLines(docs: seq<Doc>): seq<string> {
    if docs == [] then [] else Indented(docs[0]) + ([docs[0].close + docs[0].tag] + DocLines(docs[1..]))
  }

  function Body(x: Item, esc: char): seq<string> {
    SegLines(x.segs, esc) + DocLines(x.docs)
  }

  function Print(xs: seq<Item>, esc: char): seq<string> {
    if xs == [] then [] else xs[0].before + (Body(xs[0], esc) + Print(xs[1..], esc))
  }

  // -------------------------------------------------------------------------
  // What has to hold of a normal form
  // -------------------------------------------------------------------------

  predicate IsWord(w: string) {
    w != "" && forall i :: 0 <= i < |w| ==> !IsSpace(w[i])
  }

  predicate AreWords(ws: seq<string>) {
    forall i :: 0 <= i < |ws| ==> IsWord(ws[i])
  }

  predicate AllSkippable(lines: seq<string>) {
    forall i :: 0 <= i < |lines| ==> Skippable(lines[i])
  }

  predicate IsFlag(f: FlagSpec) {
    && f.key != "" && IsLetter(f.key[0]) && (forall i :: 0 <= i < |f.key| ==> IsKeyChar(f.key[i]))
    && (f.val.Some? ==> (forall i :: 0 <= i < |f.val.value| ==> !IsSpace(f.val.value[i])) && (f.val.value != "" ==> !IsQuote(f.val.value[0])))
  }

  predicate AllTabs(s: string) {
    forall i :: 0 <= i < |s| ==> s[i] == '\t'
  }

  /** No line of the body ends it; and only a here-document that strips tabs
      is indented by any. */
  predicate IsDoc(d: Doc) {
    && d.tag != "" && IsIdentStart(d.tag[0]) && (forall i :: 0 <= i < |d.tag| ==> IsIdentChar(d.tag[i]))
    && (forall i :: 0 <= i < |d.lines| ==> d.lines[i] != d.tag && RStrip(d.lines[i]) != d.tag)
    && AllTabs(d.close) && (forall i :: 0 <= i < |d.tabs| ==> AllTabs(d.tabs[i]))
    && if d.strip then forall i :: 0 <= i < |d.lines| && d.lines[i] != "" ==> d.lines[i][0] != '\t'
       else d.close == "" && forall i :: 0 <= i < |d.tabs| ==> d.tabs[i] == ""
  }

  /** A physical line; only the first may begin with a "#". */
  predicate IsSeg(s: Seg) {
    && s.words != [] && AreWords(s.words) && s.words[0][0] != '#'
    && Spaces(s.indent) && Spaces(s.pad) && AllSkippable(s.gap)
  }

  predicate IsLayout(segs: seq<Seg>, esc: char) {
    && segs != [] && (forall i :: 0 <= i < |segs| ==> IsSeg(segs[i]))
    && var ws := segs[|segs| - 1].words; Trailing(ws[|ws| - 1], esc) % 2 == 0
  }

  function Tags(docs: seq<Doc>): seq<(bool, string)> {
    if docs == [] then [] else [(docs[0].strip, docs[0].tag)] + Tags(docs[1..])
  }

  function ValueText(x: Item): string {
    JoinSpace(x.tokens)
  }

  predicate NormalForm(x: Item, esc: char) {
    && AllSkippable(x.before) && IsLayout(x.segs, esc) && AllWords(x.segs) == Head(x)
    && x.name in INSTRUCTIONS && x.name != "ONBUILD"
    && (forall i :: 0 <= i < |x.flags| ==> IsFlag(x.flags[i]))
    && AreWords(x.tokens) && FlagAt(ValueText(x)).None?
    && !(ValueText(x) != "" && ValueText(x)[0] == '[' && ValueText(x)[|ValueText(x)| - 1] == ']')
    && (forall i :: 0 <= i < |x.docs| ==> IsDoc(x.docs[i]))
    && Tags(x.docs) == if x.name in HEREDOC_INSTRUCTIONS then Openers(ValueText(x)) else []
  }

  predicate AllNormal(xs: seq<Item>, esc: char) {
    forall i :: 0 <= i < |xs| ==> NormalForm(xs[i], esc)
  }

  // -------------------------------------------------------------------------
  // The records a normal form stands for
  // -------------------------------------------------------------------------

  function FlagMap(fs: seq<FlagSpec>): map<string, string> {
    if fs == [] then map[] else map[fs[0].key := if fs[0].val.Some? then fs[0].val.value else ""] + FlagMap(fs[1..])
  }

  function HereDocs(docs: seq<Doc>): seq<HereDoc> {
    if docs == [] then [] else [HereDoc(docs[0].tag, docs[0].strip, Text(docs[0].lines))] + HereDocs(docs[1..])
  }

  function RecordOf(x: Item, line: nat): Record {
    var instr := Instr(x.name, FlagMap(x.flags), Shell(ValueText(x)), HereDocs(x.docs), line, JoinSpace(Head(x)));
    if x.onBuild then OnBuild(instr) else Plain(instr)
  }

  /** start: how many lines come before. */
  function Records(xs: seq<Item>, start: nat, esc: char): seq<Record> {
    if xs == [] then []
    else [RecordOf(xs[0], start + |xs[0].before| + 1)] + Records(xs[1..], start + |xs[0].before| + |Body(xs[0], esc)|, esc)
  }

  // -------------------------------------------------------------------------
  // Strings
  // -------------------------------------------------------------------------

  lemma {:induction false} LStripOf(a: string, b: string)
    requires Spaces(a) && (b == "" || !IsSpace(b[0]))
    ensures LStrip(a + b) == b
  {
    if a == "" {
      assert a + b == b;
    } else {
      assert (a + b)[1..] == a[1..] + b;
      LStripOf(a[1..], b);
    }
  }

  lemma {:induction false} RStripOf(a: string, b: string)
    requires Spaces(b) && (a == "" || !IsSpace(a[|a| - 1]))
    ensures RStrip(a + b) == a
  {
    if b == "" {
      assert a + b == a;
    } else {
      assert (a + b)[..|a + b| - 1] == a + b[..|b| - 1];
      RStripOf(a, b[..|b| - 1]);
    }
  }

  /** A run of c at the end of b does not reach into a. */
  lemma {:induction false} TrailingOf(a: string, b: string, c: char)
    requires a == "" || a[|a| - 1] != c
    ensures Trailing(a + b, c) == Trailing(b, c)
  {
    if b == "" {
      assert a + b == a;
    } else {
      assert (a + b)[..|a + b| - 1] == a + b[..|b| - 1];
      TrailingOf(a, b[..|b| - 1], c);
    }
  }

  lemma {:induction false} SpanOf(a: string, b: string, ok: char -> bool)
    requires (forall i :: 0 <= i < |a| ==> ok(a[i])) && (b == "" || !ok(b[0]))
    ensures Span(a + b, ok) == |a|
  {
    if a == "" {
      assert a + b == b;
    } else {
      assert (a + b)[1..] == a[1..] + b;
      SpanOf(a[1..], b, ok);
    }
  }

  lemma {:induction false} JoinConcat(a: seq<string>, b: seq<string>)
    requires a != [] && b != []
    ensures JoinSpace(a + b) == JoinSpace(a) + (" " + JoinSpace(b))
  {
    if |a| == 1 {
      assert (a + b)[1..] == b;
    } else {
      assert (a + b)[1..] == a[1..] + b;
      JoinConcat(a[1..], b);
      assert a[0] + (" " + (JoinSpace(a[1..]) + (" " + JoinSpace(b)))) == a[0] + (" " + JoinSpace(a[1..])) + (" " + JoinSpace(b));
    }
  }

  lemma {:induction false} JoinEnds(ws: seq<string>)
    requires AreWords(ws) && ws != []
    ensures var j := JoinSpace(ws);
      j != "" && !IsSpace(j[0]) && !IsSpace(j[|j| - 1]) && j[0] == ws[0][0]
  {
    assert IsWord(ws[0]);
    if |ws| > 1 {
      JoinEnds(ws[1..]);
    }
  }

  lemma StripJoin(indent: string, ws: seq<string>, pad: string)
    requires AreWords(ws) && ws != [] && Spaces(indent) && Spaces(pad)
    ensures Strip(indent + JoinSpace(ws) + pad) == JoinSpace(ws) && RStrip(indent + JoinSpace(ws) + pad) == indent + JoinSpace(ws)
    ensures LStrip(indent + JoinSpace(ws)) == JoinSpace(ws)
  {
    var j := JoinSpace(ws);
    JoinEnds(ws);
    LStripOf(indent, j + pad);
    LStripOf(indent, j);
    RStripOf(j, pad);
    RStripOf(indent + j, pad);
    assert indent + j + pad == indent + (j + pad);
  }

  /** What precedes the last word of a line ends in a space, if there is any. */
  lemma LastWord(indent: string, ws: seq<string>, esc: char)
    requires ws != [] && Spaces(indent) && !IsSpace(esc)
    ensures Trailing(indent + JoinSpace(ws), esc) == Trailing(ws[|ws| - 1], esc)
  {
    hide Trailing, Spaces, IsSpace;
    var last := ws[|ws| - 1];
    if |ws| == 1 {
      AfterIndent(indent, last, esc);
    } else {
      var init := ws[..|ws| - 1];
      assert ws == init + [last];
      JoinConcat(init, [last]);
      assert JoinSpace([last]) == last;
      assert JoinSpace(ws) == JoinSpace(init) + (" " + last);
      AfterSpace(indent, JoinSpace(init), last, esc);
    }
  }

  lemma AfterIndent(indent: string, last: string, esc: char)
    requires Spaces(indent) && !IsSpace(esc)
    ensures Trailing(indent + last, esc) == Trailing(last, esc)
  {
    assert indent != "" ==> IsSpace(indent[|indent| - 1]);
    TrailingOf(indent, last, esc);
  }

  lemma AfterSpace(a: string, b: string, last: string, esc: char)
    requires !IsSpace(esc)
    ensures Trailing(a + (b + (" " + last)), esc) == Trailing(last, esc)
  {
    assert IsSpace(' ');
    var c := a + b + " ";
    assert c[|c| - 1] == ' ';
    assert a + (b + (" " + last)) == c + last;
    TrailingOf(c, last, esc);
  }

  // -------------------------------------------------------------------------
  // A logical line comes back whatever its layout
  // -------------------------------------------------------------------------

  predicate IsEscape(esc: char) {
    esc == '\\' || esc == '`'
  }

  function Broken(s: Seg, esc: char): string {
    s.indent + JoinSpace(s.words) + (" " + [esc] + s.pad)
  }

  /** A line that goes on: the escape is seen, and taken off again. */
  lemma BrokenLine(s: Seg, esc: char)
    requires IsSeg(s) && IsEscape(esc)
    ensures EndsWithEscape(Broken(s, esc), esc)
    ensures Strip(StripTrailingEscape(Broken(s, esc), esc)) == JoinSpace(s.words)
  {
    assert Spaces(" ") && Spaces("") && !IsSpace(esc);
    hide JoinSpace, AreWords, AllSkippable, Spaces, RStrip, LStrip, Trailing;
    var j := s.indent + JoinSpace(s.words);
    var k := j + " " + [esc];
    assert Broken(s, esc) == k + s.pad;
    RStripOf(k, s.pad);
    assert k[..|k| - 1] == j + " ";
    OneEscape(j, esc);
    StripJoin(s.indent, s.words, " ");
    StripJoin(s.indent, s.words, "");
    assert s.indent + JoinSpace(s.words) + "" == j;
  }

  lemma OneEscape(j: string, esc: char)
    requires IsEscape(esc)
    ensures Trailing(j + " " + [esc], esc) == 1
  {
    var k := j + " " + [esc];
    assert k[..|k| - 1] == j + " ";
  }

  lemma LineIsNotSkippable(s: Seg, trail: string)
    requires IsSeg(s)
    ensures !Skippable(s.indent + JoinSpace(s.words) + trail)
  {
    var j := JoinSpace(s.words);
    JoinEnds(s.words);
    assert s.indent + j + trail == s.indent + (j + trail);
    LStripOf(s.indent, j + trail);
  }

  lemma {:induction false} SkipGap(gap: seq<string>, rest: seq<string>)
    requires AllSkippable(gap) && (rest == [] || !Skippable(rest[0]))
    ensures Skip(gap + rest) == rest
  {
    if gap == [] {
      assert gap + rest == rest;
    } else {
      assert (gap + rest)[1..] == gap[1..] + rest;
      SkipGap(gap[1..], rest);
    }
  }

  function Joins(segs: seq<Seg>): seq<string> {
    if segs == [] then [] else [JoinSpace(segs[0].words)] + Joins(segs[1..])
  }

  lemma FirstLine(segs: seq<Seg>, esc: char, post: seq<string>)
    requires IsLayout(segs, esc)
    ensures SegLines(segs, esc) != [] && !Skippable((SegLines(segs, esc) + post)[0])
  {
    LineIsNotSkippable(segs[0], " " + [esc] + segs[0].pad);
    LineIsNotSkippable(segs[0], "");
    assert segs[0].indent + JoinSpace(segs[0].words) + "" == segs[0].indent + JoinSpace(segs[0].words);
  }

  lemma GatheredLast(seg: Seg, esc: char, post: seq<string>)
    requires IsSeg(seg) && IsEscape(esc) && Trailing(seg.words[|seg.words| - 1], esc) % 2 == 0
    ensures var line := seg.indent + JoinSpace(seg.words);
      Gather([line] + post, esc) == ([line], post) && Strip(line) == JoinSpace(seg.words)
  {
    var line := seg.indent + JoinSpace(seg.words);
    LastWord(seg.indent, seg.words, esc);
    StripJoin(seg.indent, seg.words, "");
    assert line + "" == line;
    assert ([line] + post)[1..] == post;
  }

  lemma GatheredStep(seg: Seg, esc: char, more: seq<string>)
    requires IsSeg(seg) && IsEscape(esc) && more != [] && !Skippable(more[0])
    ensures var first := StripTrailingEscape(Broken(seg, esc), esc);
      && Gather([Broken(seg, esc)] + (seg.gap + more), esc) == ([first] + Gather(more, esc).0, Gather(more, esc).1)
      && Strip(first) == JoinSpace(seg.words)
  {
    var lines := [Broken(seg, esc)] + (seg.gap + more);
    BrokenLine(seg, esc);
    assert lines[1..] == seg.gap + more;
    SkipGap(seg.gap, more);
  }

  lemma StrippedFirst(a: string, rest: seq<string>)
    ensures Stripped([a] + rest) == [Strip(a)] + Stripped(rest)
  {
  }

  lemma LinesOfMore(segs: seq<Seg>, esc: char, post: seq<string>)
    requires |segs| > 1
    ensures SegLines(segs, esc) + post == [Broken(segs[0], esc)] + (segs[0].gap + (SegLines(segs[1..], esc) + post))
  {
  }

  lemma {:induction false} Gathered(segs: seq<Seg>, esc: char, post: seq<string>)
    requires IsLayout(segs, esc) && IsEscape(esc)
    ensures var lines := SegLines(segs, esc) + post;
      lines != [] && Stripped(Gather(lines, esc).0) == Joins(segs) && Gather(lines, esc).1 == post
    decreases |segs|
  {
    if |segs| == 1 {
      GatheredLast(segs[0], esc, post);
      StrippedFirst(segs[0].indent + JoinSpace(segs[0].words), []);
    } else {
      assert IsLayout(segs[1..], esc);
      FirstLine(segs[1..], esc, post);
      LinesOfMore(segs, esc, post);
      GatheredStep(segs[0], esc, SegLines(segs[1..], esc) + post);
      Gathered(segs[1..], esc, post);
      StrippedFirst(StripTrailingEscape(Broken(segs[0], esc), esc), Gather(SegLines(segs[1..], esc) + post, esc).0);
    }
  }

  lemma {:induction false} JoinOfJoins(segs: seq<Seg>, esc: char)
    requires segs != [] && forall i :: 0 <= i < |segs| ==> IsSeg(segs[i])
    ensures JoinSpace(Joins(segs)) == JoinSpace(AllWords(segs)) && AllWords(segs) != [] && AreWords(AllWords(segs))
    decreases |segs|
  {
    if |segs| == 1 {
      assert AllWords(segs[1..]) == [] && AllWords(segs) == segs[0].words;
      assert Joins(segs) == [JoinSpace(segs[0].words)];
    } else {
      JoinOfJoins(segs[1..], esc);
      JoinConcat(segs[0].words, AllWords(segs[1..]));
      assert Joins(segs)[1..] == Joins(segs[1..]) && Joins(segs[1..]) != [];
      assert JoinSpace(Joins(segs)) == JoinSpace(segs[0].words) + (" " + JoinSpace(Joins(segs[1..])));
    }
  }

  /** The words of an instruction, joined, whichever lines they were on. */
  lemma LogicalLineComesBack(segs: seq<Seg>, esc: char, post: seq<string>)
    requires IsLayout(segs, esc) && IsEscape(esc)
    ensures var (parts, after) := Gather(SegLines(segs, esc) + post, esc);
      LogicalLine(parts) == JoinSpace(AllWords(segs)) && after == post
    ensures AllWords(segs) != [] && AreWords(AllWords(segs)) && SegLines(segs, esc) != []
  {
    Gathered(segs, esc, post);
    FirstLine(segs, esc, post);
    JoinOfJoins(segs, esc);
    StripJoin("", AllWords(segs), "");
    assert "" + JoinSpace(AllWords(segs)) + "" == JoinSpace(AllWords(segs));
  }

  // -------------------------------------------------------------------------
  // Its parts come back
  // -------------------------------------------------------------------------

  lemma SplitAfter(word: string, tail: string, text: string)
    requires IsWord(word) && LStrip(text) == word + tail && (tail == "" || IsSpace(tail[0]))
    ensures SplitFirst(text) == (word, LStrip(tail))
  {
    SpanOf(word, tail, NotSpace);
    assert (word + tail)[..|word|] == word && (word + tail)[|word|..] == tail;
  }

  lemma SplitWords(ws: seq<string>, text: string)
    requires AreWords(ws) && ws != [] && LStrip(text) == JoinSpace(ws)
    ensures SplitFirst(text) == (ws[0], JoinSpace(ws[1..]))
  {
    if |ws| == 1 {
      assert ws[0] + "" == JoinSpace(ws);
      SplitAfter(ws[0], "", text);
    } else {
      var rest := JoinSpace(ws[1..]);
      JoinEnds(ws[1..]);
      LStripOf(" ", rest);
      assert JoinSpace(ws) == ws[0] + (" " + rest);
      SplitAfter(ws[0], " " + rest, text);
    }
  }

  /** What follows the key in a flag's word. */
  function FlagTail(f: FlagSpec, rest: string): string {
    (if f.val.Some? then "=" + f.val.value else "") + rest
  }

  lemma FlagKey(f: FlagSpec, rest: string)
    requires IsFlag(f) && (rest == "" || IsSpace(rest[0]))
    ensures var t := FlagWord(f) + rest;
      && |t| >= 3 && t[..2] == "--" && IsLetter(t[2]) && t[2..] == f.key + FlagTail(f, rest)
      && Span(t[2..], IsKeyChar) == |f.key|
  {
    var t := FlagWord(f) + rest;
    assert t[2..] == f.key + FlagTail(f, rest);
    SpanOf(f.key, FlagTail(f, rest), IsKeyChar);
  }

  lemma FlagValue(f: FlagSpec, rest: string)
    requires IsFlag(f) && f.val.Some? && (rest == "" || IsSpace(rest[0]))
    ensures var u := FlagTail(f, rest);
      && u[0] == '=' && u[1..] == f.val.value + rest && Span(u[1..], NotSpace) == |f.val.value|
  {
    var u := FlagTail(f, rest);
    assert u[1..] == f.val.value + rest;
    SpanOf(f.val.value, rest, NotSpace);
  }

  /** A flag at the start of a text is found whole. */
  lemma FlagOn(f: FlagSpec, rest: string)
    requires IsFlag(f) && (rest == "" || IsSpace(rest[0]))
    ensures FlagIn(FlagWord(f) + rest) == Some(Flag(f.key, f.val, |FlagWord(f)|))
  {
    hide Span, IsFlag, IsSpace, IsLetter;
    var t, u := FlagWord(f) + rest, FlagTail(f, rest);
    FlagKey(f, rest);
    var n := 2 + |f.key|;
    KeyThenTail(t, f.key, u);
    if f.val.Some? {
      FlagValue(f, rest);
      KeyThenTail(t, f.key, u);
      var m := n + 1 + |f.val.value|;
      assert t[n + 1..] == u[1..];
      assert t[n + 1..m] == t[n + 1..][..|f.val.value|] == f.val.value;
      assert t[n] == '=';
      EqualsIsNoSpace();
      assert FlagIn(t) == Some(Flag(t[2..n], Some(t[n + 1..m]), m));
    } else {
      assert u == rest;
    }
  }

  lemma EqualsIsNoSpace()
    ensures !IsSpace('=')
  {
  }

  lemma KeyThenTail(t: string, key: string, u: string)
    requires |t| >= 2 && t[2..] == key + u
    ensures t[2..2 + |key|] == key && t[2 + |key|..] == u
    ensures u != "" ==> 2 + |key| < |t| && t[2 + |key|] == u[0]
  {
    assert t[2..][..|key|] == key && t[2..][|key|..] == u;
  }

  lemma FlagFound(f: FlagSpec, text: string, rest: string)
    requires IsFlag(f) && LStrip(text) == FlagWord(f) + rest && (rest == "" || IsSpace(rest[0]))
    ensures FlagAt(text).Some?
    ensures var g := FlagAt(text).value;
      g.key == f.key && g.val == f.val && text[g.end..] == rest
  {
    FlagOn(f, rest);
    LStripShrinks(text);
    var t := LStrip(text);
    assert text[|text| - |rest|..] == text[|text| - |t|..][|t| - |rest|..];
  }

  /** What is to be read of a text that holds flags and then tokens. */
  ghost predicate Holds(text: string, ws: seq<string>) {
    if ws == [] then Spaces(text) else LStrip(text) == JoinSpace(ws)
  }

  lemma {:induction false} SpacesStrip(s: string)
    requires Spaces(s)
    ensures LStrip(s) == ""
  {
    if s != "" {
      SpacesStrip(s[1..]);
    }
  }

  /** After the first word come the others. */
  lemma AfterWord(word: string, ws: seq<string>) returns (rest: string)
    requires AreWords(ws)
    ensures JoinSpace([word] + ws) == word + rest && (rest == "" || IsSpace(rest[0])) && Holds(rest, ws)
  {
    if ws == [] {
      rest := "";
      assert word + "" == word;
    } else {
      rest := " " + JoinSpace(ws);
      assert ([word] + ws)[1..] == ws;
      JoinEnds(ws);
      LStripOf(" ", JoinSpace(ws));
    }
  }

  lemma {:induction false} FlagWordsAreWords(fs: seq<FlagSpec>)
    requires forall i :: 0 <= i < |fs| ==> IsFlag(fs[i])
    ensures AreWords(FlagWords(fs))
  {
    if fs != [] {
      FlagWordsAreWords(fs[1..]);
      FlagIsWord(fs[0]);
    }
  }

  lemma FlagIsWord(f: FlagSpec)
    requires IsFlag(f)
    ensures IsWord(FlagWord(f))
  {
    forall i | 0 <= i < |f.key|
      ensures !IsSpace(f.key[i])
    {
      assert IsKeyChar(f.key[i]);
    }
  }

  lemma {:induction false} FlagsComeBack(text: string, fs: seq<FlagSpec>, tokens: seq<string>, lib: Libraries)
    requires (forall i :: 0 <= i < |fs| ==> IsFlag(fs[i])) && AreWords(tokens) && FlagAt(JoinSpace(tokens)).None?
    requires Holds(text, FlagWords(fs) + tokens)
    ensures var (flags, left) := ParseFlags(text, lib); flags == FlagMap(fs) && Strip(left) == JoinSpace(tokens)
    decreases |fs|
  {
    if fs == [] {
      assert FlagWords(fs) + tokens == tokens;
      if tokens == [] {
        SpacesStrip(text);
      } else {
        StripJoin("", tokens, "");
        assert "" + JoinSpace(tokens) + "" == JoinSpace(tokens) && "" + JoinSpace(tokens) == JoinSpace(tokens);
      }
    } else {
      var more := FlagWords(fs[1..]) + tokens;
      FlagWordsAreWords(fs[1..]);
      var rest := AfterWord(FlagWord(fs[0]), more);
      assert FlagWords(fs) + tokens == [FlagWord(fs[0])] + more;
      FlagFound(fs[0], text, rest);
      FlagsComeBack(rest, fs[1..], tokens, lib);
      assert ParseFlags(text, lib).0 == map[fs[0].key := if fs[0].val.Some? then fs[0].val.value else ""] + ParseFlags(rest, lib).0;
    }
  }

  predicate Capitals(s: string) {
    forall i :: 0 <= i < |s| ==> 'A' <= s[i] <= 'Z'
  }

  lemma NamesAreCapitals(name: string)
    requires name in INSTRUCTIONS
    ensures name != "" && Capitals(name) && Upper(name) == name && IsWord(name)
  {
    var i :| 0 <= i < |INSTRUCTIONS| && INSTRUCTIONS[i] == name;
    assert forall k :: 0 <= k < |INSTRUCTIONS| ==> INSTRUCTIONS[k] != "" && Capitals(INSTRUCTIONS[k]);
  }

  // -------------------------------------------------------------------------
  // Here-documents
  // -------------------------------------------------------------------------

  lemma {:induction false} TabsGo(t: string, l: string)
    requires AllTabs(t) && (l != "" ==> l[0] != '\t')
    ensures LStripTabs(t + l) == l
  {
    if t == "" {
      assert t + l == l;
    } else {
      assert (t + l)[1..] == t[1..] + l;
      TabsGo(t[1..], l);
    }
  }

  /** An indented line is taken as what it is without its tabs. */
  lemma LineOfBody(d: Doc, k: nat)
    requires IsDoc(d) && k < |d.lines|
    ensures !Closes(Indented(d)[k], d.tag, d.strip) && BodyLine(Indented(d)[k], d.strip) == d.lines[k]
  {
    var t := if k < |d.tabs| then d.tabs[k] else "";
    if d.strip {
      TabsGo(t, d.lines[k]);
    } else {
      assert t + d.lines[k] == d.lines[k];
    }
  }

  lemma {:induction false} BodyComesBack(d: Doc, k: nat, post: seq<string>)
    requires IsDoc(d) && k <= |d.lines|
    ensures Collect(Indented(d)[k..] + ([d.close + d.tag] + post), d.tag, d.strip) == Some((d.lines[k..], post))
    decreases |d.lines| - k
  {
    hide Collect, Closes, Indented;
    var ends := [d.close + d.tag] + post;
    if k == |d.lines| {
      assert Indented(d)[k..] + ends == ends;
      TagCloses(d);
      CollectOne(d.close + d.tag, post, d.tag, d.strip);
    } else {
      var first, more := Indented(d)[k], Indented(d)[k + 1..];
      LineOfBody(d, k);
      hide IsDoc, BodyLine;
      BodyComesBack(d, k + 1, post);
      CollectOne(first, more + ends, d.tag, d.strip);
      assert Indented(d)[k..] == [first] + more;
      assert [first] + more + ends == [first] + (more + ends);
      assert d.lines[k..] == [d.lines[k]] + d.lines[k + 1..];
    }
  }

  lemma TagCloses(d: Doc)
    requires IsDoc(d)
    ensures Closes(d.close + d.tag, d.tag, d.strip)
  {
    assert d.tag[0] != '\t';
    if d.strip {
      TabsGo(d.close, d.tag);
    } else {
      assert d.close + d.tag == d.tag;
    }
  }

  /** One here-document comes back, and what follows it is left. */
  lemma DocComesBack(d: Doc, post: seq<string>)
    requires IsDoc(d)
    ensures Docs(DocLines([d]) + post, Tags([d])) == Some((HereDocs([d]), post))
  {
    assert d.lines == d.lines[0..] && Indented(d) == Indented(d)[0..];
    BodyComesBack(d, 0, post);
    assert DocLines([d]) + post == Indented(d) + ([d.close + d.tag] + post);
    assert [d][1..] == [] && Tags([d]) == [(d.strip, d.tag)];
    assert HereDocs([d]) == [HereDoc(d.tag, d.strip, Text(d.lines))];
    DocsStep(DocLines([d]) + post, Tags([d]));
  }

  /** What is left after a body is a tail of the lines, shorter than them. */
  lemma {:induction false} CollectLeavesTail(rest: seq<string>, tag: string, strip: bool)
    ensures var r := Collect(rest, tag, strip);
      r.Some? ==> |r.value.1| < |rest| && r.value.1 == rest[|rest| - |r.value.1|..]
  {
    if rest != [] && !Closes(rest[0], tag, strip) {
      CollectLeavesTail(rest[1..], tag, strip);
    }
  }

  lemma {:induction false} TextGrows(a: seq<string>, b: seq<string>)
    requires a != []
    ensures |Text(a + b)| > |Text(b)|
  {
    assert (a + b)[1..] == a[1..] + b;
    if a[1..] == [] {
      assert a[1..] + b == b;
    } else {
      TextGrows(a[1..], b);
    }
  }

  /** Every line of a body's text ends in a newline, the last one too. */
  lemma {:induction false} TextEndsLines(body: seq<string>, last: string)
    ensures Text(body + [last]) == Text(body) + last + "\n" && Text([]) == ""
  {
    if body == [] {
      assert body + [last] == [last] && [last][1..] == [];
    } else {
      assert (body + [last])[1..] == body[1..] + [last];
      TextEndsLines(body[1..], last);
    }
  }

  lemma TagsAndDocs(docs: seq<Doc>)
    requires docs != []
    ensures Tags(docs) == [(docs[0].strip, docs[0].tag)] + Tags(docs[1..]) && |Tags(docs)| == |docs| == |HereDocs(docs)|
    ensures HereDocs(docs) == [HereDoc(docs[0].tag, docs[0].strip, Text(docs[0].lines))] + HereDocs(docs[1..])
  {
    if |docs| > 1 {
      TagsAndDocs(docs[1..]);
    }
  }

  /** Not these documents, or more of the lines than they take. */
  ghost predicate Astray(r: Option<(seq<HereDoc>, seq<string>)>, docs: seq<Doc>, post: seq<string>) {
    r.Some? ==> r.value.0 != HereDocs(docs) || |r.value.1| < |post|
  }

  lemma DocsUnfold(lines: seq<string>, docs: seq<Doc>)
    requires docs != []
    ensures var first := Collect(lines, docs[0].tag, docs[0].strip);
      Docs(lines, Tags(docs)) ==
        if first.None? then None
        else
          var doc := HereDoc(docs[0].tag, docs[0].strip, Text(first.value.0));
          if |docs| == 1 then Some(([doc], first.value.1)) else After([doc], Docs(SkipOneLine(first.value.1), Tags(docs[1..])))
  {
    TagsAndDocs(docs);
    if |docs| > 1 {
      TagsAndDocs(docs[1..]);
    }
    DocsStep(lines, Tags(docs));
    assert Tags(docs)[1..] == Tags(docs[1..]);
  }

  lemma AstrayStep(doc: HereDoc, r: Option<(seq<HereDoc>, seq<string>)>, docs: seq<Doc>, post: seq<string>)
    requires docs != [] && (Astray(r, docs[1..], post) || doc != HereDocs(docs)[0])
    ensures Astray(After([doc], r), docs, post)
  {
    TagsAndDocs(docs);
    if r.Some? {
      assert ([doc] + r.value.0)[1..] == r.value.0 && HereDocs(docs)[1..] == HereDocs(docs[1..]);
      assert ([doc] + r.value.0)[0] == doc;
    }
  }

  lemma LinesOfDocs(docs: seq<Doc>, post: seq<string>)
    requires docs != []
    ensures var more := DocLines(docs[1..]) + post;
      DocLines(docs) + post == Indented(docs[0]) + ([docs[0].close + docs[0].tag] + more) && (|docs| == 1 ==> more == post)
  {
    hide Indented;
    var lines, tag := Indented(docs[0]), [docs[0].close + docs[0].tag];
    Regroup(lines, tag, DocLines(docs[1..]), post);
  }

  /** From inside the first body, part of it is missing. */
  lemma FromInside(docs: seq<Doc>, skip: nat, more: seq<string>, post: seq<string>)
    requires docs != [] && IsDoc(docs[0]) && 0 < skip <= |docs[0].lines|
    ensures Astray(Docs((Indented(docs[0]) + ([docs[0].close + docs[0].tag] + more))[skip..], Tags(docs)), docs, post)
  {
    var d := docs[0];
    var lines := (Indented(d) + ([d.close + d.tag] + more))[skip..];
    BodyCutShort(d, skip, more);
    DocsUnfold(lines, docs);
    TagsAndDocs(docs);
    var doc := HereDoc(d.tag, d.strip, Text(d.lines[skip..]));
    if |docs| > 1 {
      AstrayStep(doc, Docs(SkipOneLine(more), Tags(docs[1..])), docs, post);
    } else {
      assert HereDocs(docs)[0] != doc && [doc][0] == doc;
    }
  }

  /** Read from a line too far on, here-documents do not come back: a body
      is missing something, or the reading goes on past their end. */
  lemma {:induction false} TooFarOn(docs: seq<Doc>, skip: nat, post: seq<string>)
    requires docs != [] && (forall i :: 0 <= i < |docs| ==> IsDoc(docs[i])) && 0 < skip <= |DocLines(docs) + post|
    ensures Astray(Docs((DocLines(docs) + post)[skip..], Tags(docs)), docs, post)
    decreases |docs|, 0
  {
    var d, more := docs[0], DocLines(docs[1..]) + post;
    LinesOfDocs(docs, post);
    if skip <= |d.lines| {
      FromInside(docs, skip, more, post);
    } else {
      var lines := (Indented(d) + ([d.close + d.tag] + more))[skip..];
      BeyondBody(d, skip, more);
      DocsUnfold(lines, docs);
      var first := Collect(lines, d.tag, d.strip);
      if first.Some? && |docs| > 1 {
        StillTooFar(docs[1..], more, first.value.1, post);
        AstrayStep(HereDoc(d.tag, d.strip, Text(first.value.0)), Docs(SkipOneLine(first.value.1), Tags(docs[1..])), docs, post);
      }
    }
  }

  lemma BeyondBody(d: Doc, skip: nat, more: seq<string>)
    requires |d.lines| < skip <= |d.lines| + 1 + |more|
    ensures var lines := Indented(d) + ([d.close + d.tag] + more);
      var r := Collect(lines[skip..], d.tag, d.strip);
      r.Some? ==> |r.value.1| < |more| && r.value.1 == more[|more| - |r.value.1|..]
  {
    var lines := Indented(d) + ([d.close + d.tag] + more);
    assert lines[skip..] == more[skip - |d.lines| - 1..];
    CollectLeavesTail(lines[skip..], d.tag, d.strip);
  }

  lemma {:induction false} StillTooFar(docs: seq<Doc>, lines: seq<string>, after: seq<string>, post: seq<string>)
    requires docs != [] && (forall i :: 0 <= i < |docs| ==> IsDoc(docs[i])) && lines == DocLines(docs) + post
    requires |after| < |lines| && after == lines[|lines| - |after|..]
    ensures Astray(Docs(SkipOneLine(after), Tags(docs)), docs, post)
    decreases |docs|, 1
  {
    TagsAndDocs(docs);
    if after == [] {
      DocsUnfold([], docs);
    } else {
      assert SkipOneLine(after) == lines[|lines| - |after| + 1..];
      TooFarOn(docs, |lines| - |after| + 1, post);
    }
  }

  lemma BodyCutShort(d: Doc, skip: nat, more: seq<string>)
    requires IsDoc(d) && 0 < skip <= |d.lines|
    ensures var lines := Indented(d) + ([d.close + d.tag] + more);
      Collect(lines[skip..], d.tag, d.strip) == Some((d.lines[skip..], more)) && Text(d.lines[skip..]) != Text(d.lines)
  {
    hide IsDoc, Collect, Text;
    var lines := Indented(d) + ([d.close + d.tag] + more);
    BodyComesBack(d, skip, more);
    assert lines[skip..] == Indented(d)[skip..] + ([d.close + d.tag] + more);
    TextGrows(d.lines[..skip], d.lines[skip..]);
    assert d.lines[..skip] + d.lines[skip..] == d.lines;
  }

  /** An instruction's here-documents come back, all of them and no more,
      exactly when there is only one. */
  lemma DocsComeBackIff(docs: seq<Doc>, post: seq<string>)
    requires docs != [] && forall i :: 0 <= i < |docs| ==> IsDoc(docs[i])
    ensures var r := Docs(DocLines(docs) + post, Tags(docs));
      (r == Some((HereDocs(docs), post)) <==> |docs| == 1) && (|docs| > 1 ==> Astray(r, docs, post))
  {
    if |docs| == 1 {
      assert docs == [docs[0]];
      DocComesBack(docs[0], post);
    } else {
      var d, more := docs[0], DocLines(docs[1..]) + post;
      LinesOfDocs(docs, post);
      assert d.lines == d.lines[0..] && Indented(d) == Indented(d)[0..];
      BodyComesBack(d, 0, more);
      DocsUnfold(DocLines(docs) + post, docs);
      LinesOfDocs(docs[1..], post);
      assert more != [] && SkipOneLine(more) == more[1..];
      TooFarOn(docs[1..], 1, post);
      AstrayStep(HereDoc(d.tag, d.strip, Text(d.lines)), Docs(SkipOneLine(more), Tags(docs[1..])), docs, post);
    }
  }

  // -------------------------------------------------------------------------
  // One instruction
  // -------------------------------------------------------------------------

  lemma TagsOfNone(docs: seq<Doc>)
    ensures Tags(docs) == [] <==> docs == []
    ensures docs == [] ==> HereDocs(docs) == []
  {
  }

  /** The record comes back, and the lines after it are left, exactly when
      there is at most one here-document. */
  ghost predicate ComesBack(r: Option<(Instr, seq<string>)>, instr: Instr, docs: seq<Doc>, post: seq<string>) {
    && (|docs| <= 1 ==> r == Some((instr, post)))
    && (|docs| > 1 && r.Some? ==> r.value.0 != instr || |r.value.1| < |post|)
  }

  function InstrOf(x: Item, line: nat): Instr {
    Instr(x.name, FlagMap(x.flags), Shell(ValueText(x)), HereDocs(x.docs), line, JoinSpace(Head(x)))
  }

  lemma NamedComesBack(x: Item, esc: char, text: string, post: seq<string>, line: nat, lib: Libraries)
    requires NormalForm(x, esc) && Holds(text, FlagWords(x.flags) + x.tokens)
    ensures ComesBack(ParseNamed(x.name, text, JoinSpace(Head(x)), line, DocLines(x.docs) + post, lib), InstrOf(x, line), x.docs, post)
  {
    FlagsComeBack(text, x.flags, x.tokens, lib);
    TagsOfNone(x.docs);
    if x.docs == [] {
      assert DocLines(x.docs) + post == post;
    } else {
      DocsComeBackIff(x.docs, post);
    }
  }

  lemma HoldsJoined(ws: seq<string>)
    requires AreWords(ws)
    ensures Holds(JoinSpace(ws), ws)
  {
    if ws != [] {
      JoinEnds(ws);
      LStripOf("", JoinSpace(ws));
      assert "" + JoinSpace(ws) == JoinSpace(ws);
    }
  }

  lemma OnBuildIsAName()
    ensures "ONBUILD" in INSTRUCTIONS && Upper("ONBUILD") == "ONBUILD" && IsWord("ONBUILD")
  {
    assert INSTRUCTIONS[11] == "ONBUILD";
    NamesAreCapitals("ONBUILD");
  }

  /** The first of some words, as the name it is. */
  lemma FirstWord(name: string, ws: seq<string>)
    requires IsWord(name) && AreWords(ws)
    ensures SplitFirst(JoinSpace([name] + ws)) == (name, JoinSpace(ws))
  {
    HoldsJoined([name] + ws);
    SplitWords([name] + ws, JoinSpace([name] + ws));
    assert ([name] + ws)[1..] == ws;
  }

  function Made(onBuild: bool, named: Option<(Instr, seq<string>)>): Result<(Record, seq<string>)> {
    if named.None? then Err(UnterminatedHeredoc)
    else Ok((if onBuild then OnBuild(named.value.0) else Plain(named.value.0), named.value.1))
  }

  predicate IsPlainName(name: string) {
    name in INSTRUCTIONS && name != "ONBUILD" && Upper(name) == name && name != ""
  }

  lemma PlainIsRead(text: string, name: string, rest: string, line: nat, after: seq<string>, lib: Libraries)
    requires IsPlainName(name) && SplitFirst(text) == (name, rest)
    ensures ParseOne(text, line, after, lib) == Made(false, ParseNamed(name, rest, text, line, after, lib))
  {
  }

  lemma OnBuildIsRead(text: string, inner: string, name: string, rest: string, line: nat, after: seq<string>, lib: Libraries)
    requires IsPlainName(name) && SplitFirst(text) == ("ONBUILD", inner) && SplitFirst(inner) == (name, rest)
    ensures ParseOne(text, line, after, lib) == Made(true, ParseNamed(name, rest, text, line, after, lib))
  {
    OnBuildIsAName();
  }

  lemma PlainNameIsRead(name: string, ws: seq<string>, line: nat, after: seq<string>, lib: Libraries)
    requires name in INSTRUCTIONS && name != "ONBUILD" && AreWords(ws)
    ensures var text := JoinSpace([name] + ws);
      ParseOne(text, line, after, lib) == Made(false, ParseNamed(name, JoinSpace(ws), text, line, after, lib))
  {
    NamesAreCapitals(name);
    FirstWord(name, ws);
    PlainIsRead(JoinSpace([name] + ws), name, JoinSpace(ws), line, after, lib);
  }

  lemma OnBuildNameIsRead(name: string, ws: seq<string>, line: nat, after: seq<string>, lib: Libraries)
    requires name in INSTRUCTIONS && name != "ONBUILD" && AreWords(ws)
    ensures var text := JoinSpace(["ONBUILD"] + ([name] + ws));
      ParseOne(text, line, after, lib) == Made(true, ParseNamed(name, JoinSpace(ws), text, line, after, lib))
  {
    NamesAreCapitals(name);
    FirstWord(name, ws);
    OnBuildIsAName();
    FirstWord("ONBUILD", [name] + ws);
    OnBuildIsRead(JoinSpace(["ONBUILD"] + ([name] + ws)), JoinSpace([name] + ws), name, JoinSpace(ws), line, after, lib);
  }

  lemma OneComesBack(x: Item, esc: char, post: seq<string>, line: nat, lib: Libraries)
    requires NormalForm(x, esc)
    ensures var r := ParseOne(JoinSpace(Head(x)), line, DocLines(x.docs) + post, lib);
      && (|x.docs| <= 1 ==> r == Ok((RecordOf(x, line), post)))
      && (|x.docs| > 1 && r.Ok? ==> r.value.0 != RecordOf(x, line) || |r.value.1| < |post|)
  {
    var ws := FlagWords(x.flags) + x.tokens;
    FlagWordsAreWords(x.flags);
    if x.onBuild {
      OnBuildNameIsRead(x.name, ws, line, DocLines(x.docs) + post, lib);
    } else {
      PlainNameIsRead(x.name, ws, line, DocLines(x.docs) + post, lib);
    }
    HoldsJoined(ws);
    NamedComesBack(x, esc, JoinSpace(ws), post, line, lib);
  }

  /** The logical line is read, and the rest of the step is about its words. */
  lemma LineIsRead(segs: seq<Seg>, esc: char, after: seq<string>, line: nat, lib: Libraries)
    requires IsLayout(segs, esc) && IsEscape(esc)
    ensures SegLines(segs, esc) != []
    ensures var one := ParseOne(JoinSpace(AllWords(segs)), line, after, lib);
      ParseStep(SegLines(segs, esc) + after, line, esc, lib) == if one.Err? then Err(one.error) else Ok(([one.value.0], one.value.1))
  {
    LogicalLineComesBack(segs, esc, after);
    FirstLine(segs, esc, after);
    JoinEnds(AllWords(segs));
  }

  lemma StepComesBack(x: Item, esc: char, post: seq<string>, line: nat, lib: Libraries)
    requires NormalForm(x, esc) && IsEscape(esc)
    ensures Body(x, esc) != []
    ensures var r := ParseStep(Body(x, esc) + post, line, esc, lib);
      && (|x.docs| <= 1 ==> r == Ok(([RecordOf(x, line)], post)))
      && (|x.docs| > 1 && r.Ok? ==> |r.value.0| == 1 && (r.value.0[0] != RecordOf(x, line) || |r.value.1| < |post|))
  {
    assert IsLayout(x.segs, esc) && AllWords(x.segs) == Head(x);
    hide ParseStep, ParseOne, NormalForm, SegLines, DocLines, JoinSpace, RecordOf, Head, AllWords, IsLayout;
    LineIsRead(x.segs, esc, DocLines(x.docs) + post, line, lib);
    assert Body(x, esc) + post == SegLines(x.segs, esc) + (DocLines(x.docs) + post);
    OneComesBack(x, esc, post, line, lib);
  }

  // -------------------------------------------------------------------------
  // Where the reading may have got to
  // -------------------------------------------------------------------------

  lemma {:induction false} LStripAfterTabs(s: string)
    ensures LStrip(s) == LStrip(LStripTabs(s))
  {
    if s != "" && s[0] == '\t' {
      LStripAfterTabs(s[1..]);
    }
  }

  lemma {:induction false} RStripIsPrefix(s: string)
    ensures RStrip(s) <= s
  {
    if s != "" && IsSpace(s[|s| - 1]) {
      RStripIsPrefix(s[..|s| - 1]);
    }
  }

  /** A closing tag is never a blank line or a comment. */
  lemma ClosingIsNotSkippable(line: string, tag: string, strip: bool)
    requires tag != "" && IsIdentStart(tag[0]) && Closes(line, tag, strip)
    ensures !Skippable(line)
  {
    var l := if strip then LStripTabs(line) else line;
    LStripAfterTabs(line);
    RStripIsPrefix(l);
    assert l[0] == tag[0];
    LStripOf("", l);
    assert "" + l == l;
  }

  /** The line just before what is left closed a here-document. */
  ghost predicate PastSomething(rest: seq<string>, left: seq<string>) {
    |left| < |rest| && left == rest[|rest| - |left|..] && !Skippable(rest[|rest| - |left| - 1])
  }

  lemma {:induction false} CollectGetsPast(rest: seq<string>, tag: string, strip: bool)
    requires tag != "" && IsIdentStart(tag[0])
    ensures var r := Collect(rest, tag, strip); r.Some? ==> PastSomething(rest, r.value.1)
  {
    if rest != [] {
      if Closes(rest[0], tag, strip) {
        ClosingIsNotSkippable(rest[0], tag, strip);
      } else {
        CollectGetsPast(rest[1..], tag, strip);
      }
    }
  }

  lemma PastTail(rest: seq<string>, mid: seq<string>, left: seq<string>)
    requires |mid| <= |rest| && mid == rest[|rest| - |mid|..] && PastSomething(mid, left)
    ensures PastSomething(rest, left)
  {
    assert left == rest[|rest| - |mid|..][|mid| - |left|..];
  }

  lemma {:induction false} DocsGetPast(rest: seq<string>, tags: seq<(bool, string)>)
    requires tags != [] && forall i :: 0 <= i < |tags| ==> tags[i].1 != "" && IsIdentStart(tags[i].1[0])
    ensures var r := Docs(rest, tags); r.Some? ==> PastSomething(rest, r.value.1)
    decreases |tags|
  {
    CollectGetsPast(rest, tags[0].1, tags[0].0);
    DocsStep(rest, tags);
    var first := Collect(rest, tags[0].1, tags[0].0);
    if first.Some? && |tags| > 1 {
      var after := first.value.1;
      DocsGetPast(SkipOneLine(after), tags[1..]);
      var r := Docs(SkipOneLine(after), tags[1..]);
      if r.Some? {
        assert SkipOneLine(after) == rest[|rest| - |SkipOneLine(after)|..];
        PastTail(rest, SkipOneLine(after), r.value.1);
      }
    }
  }

  // -------------------------------------------------------------------------
  // A whole file
  // -------------------------------------------------------------------------

  lemma {:induction false} SkipBefore(before: seq<string>, rest: seq<string>, total: nat, esc: char, lib: Libraries)
    requires AllSkippable(before) && |before + rest| <= total
    ensures Parse(before + rest, total, esc, lib) == Parse(rest, total, esc, lib)
    decreases |before|
  {
    if before == [] {
      assert before + rest == rest;
    } else {
      assert (before + rest)[1..] == before[1..] + rest;
      SkipBefore(before[1..], rest, total, esc, lib);
      var r := Parse(before[1..] + rest, total, esc, lib);
      assert r.Ok? ==> [] + r.value == r.value;
    }
  }

  function LineOf(r: Record): nat {
    if r.Plain? then r.instr.line else r.inner.line
  }

  lemma StepLine(rest: seq<string>, line: nat, esc: char, lib: Libraries)
    requires rest != []
    ensures var r := ParseStep(rest, line, esc, lib);
      r.Ok? ==> forall i :: 0 <= i < |r.value.0| ==> LineOf(r.value.0[i]) == line
  {
    hide Gather, LogicalLine, SplitFirst, Upper, ParseFlags, Openers, Docs, Strip, ValueOf;
  }

  /** No record names a line before those it was read from. */
  lemma {:induction false} LinesAreAhead(rest: seq<string>, total: nat, esc: char, lib: Libraries)
    requires |rest| <= total
    ensures var r := Parse(rest, total, esc, lib);
      r.Ok? ==> forall i :: 0 <= i < |r.value| ==> LineOf(r.value[i]) > total - |rest|
    decreases |rest|
  {
    if rest != [] {
      var step := ParseStep(rest, total - |rest| + 1, esc, lib);
      StepLine(rest, total - |rest| + 1, esc, lib);
      if step.Ok? {
        LinesAreAhead(step.value.1, total, esc, lib);
      }
    }
  }

  lemma {:induction false} TagsAreNames(docs: seq<Doc>)
    requires forall i :: 0 <= i < |docs| ==> IsDoc(docs[i])
    ensures forall i :: 0 <= i < |Tags(docs)| ==> Tags(docs)[i].1 != "" && IsIdentStart(Tags(docs)[i].1[0])
  {
    if docs != [] {
      TagsAreNames(docs[1..]);
      TagsAndDocs(docs);
    }
  }

  /** What an instruction leaves is a tail of the lines after its own, and if
      it takes any of those, the last one it takes is no blank or comment. */
  lemma StepGetsPast(x: Item, esc: char, post: seq<string>, line: nat, lib: Libraries)
    requires NormalForm(x, esc) && IsEscape(esc) && x.docs != []
    ensures var r := ParseStep(Body(x, esc) + post, line, esc, lib);
      r.Ok? ==> PastSomething(DocLines(x.docs) + post, r.value.1)
  {
    hide ParseStep, ParseOne, SplitFirst, SegLines, DocLines, Openers, Docs, JoinSpace;
    var ws := FlagWords(x.flags) + x.tokens;
    var after := DocLines(x.docs) + post;
    LineIsRead(x.segs, esc, after, line, lib);
    assert Body(x, esc) + post == SegLines(x.segs, esc) + after;
    FlagWordsAreWords(x.flags);
    if x.onBuild {
      OnBuildNameIsRead(x.name, ws, line, after, lib);
    } else {
      PlainNameIsRead(x.name, ws, line, after, lib);
    }
    HoldsJoined(ws);
    FlagsComeBack(JoinSpace(ws), x.flags, x.tokens, lib);
    TagsOfNone(x.docs);
    TagsAreNames(x.docs);
    DocsGetPast(after, Tags(x.docs));
  }

  /** All that the rest of the file depends on: the record comes back with
      what follows it exactly if there is at most one here-document. */
  ghost predicate StepIs(x: Item, esc: char, post: seq<string>, line: nat, lib: Libraries)
    requires Body(x, esc) != []
  {
    var r := ParseStep(Body(x, esc) + post, line, esc, lib);
    if |x.docs| <= 1 then r == Ok(([RecordOf(x, line)], post))
    else r.Ok? ==>
      |r.value.0| == 1 && (r.value.0[0] != RecordOf(x, line) || (|r.value.1| < |post| && PastSomething(DocLines(x.docs) + post, r.value.1)))
  }

  ghost predicate IsRead(x: Item, esc: char, lib: Libraries) {
    && AllSkippable(x.before) && Body(x, esc) != []
    && forall post: seq<string>, line: nat :: StepIs(x, esc, post, line, lib)
  }

  lemma NormalFormIsRead(x: Item, esc: char, lib: Libraries)
    requires NormalForm(x, esc) && IsEscape(esc)
    ensures IsRead(x, esc, lib)
  {
    StepComesBack(x, esc, [], 0, lib);
    forall post: seq<string>, line: nat
      ensures StepIs(x, esc, post, line, lib)
    {
      StepComesBack(x, esc, post, line, lib);
      if |x.docs| > 1 {
        StepGetsPast(x, esc, post, line, lib);
      }
    }
  }

  ghost predicate AllRead(xs: seq<Item>, esc: char, lib: Libraries) {
    forall i :: 0 <= i < |xs| ==> IsRead(xs[i], esc, lib)
  }

  lemma NormalFormsAreRead(xs: seq<Item>, esc: char, lib: Libraries)
    requires AllNormal(xs, esc) && IsEscape(esc)
    ensures AllRead(xs, esc, lib)
  {
    hide NormalForm, IsRead;
    forall i | 0 <= i < |xs|
      ensures IsRead(xs[i], esc, lib)
    {
      NormalFormIsRead(xs[i], esc, lib);
    }
  }

  /** What was taken goes beyond the blank and comment lines it began with. */
  lemma BeyondGap(docs: seq<string>, gap: seq<string>, more: seq<string>, left: seq<string>)
    requires AllSkippable(gap) && PastSomething(docs + (gap + more), left) && |left| < |gap + more|
    ensures |left| < |more|
  {
    var post := gap + more;
    var all := docs + post;
    assert all[|all| - |left| - 1] == post[|post| - |left| - 1];
    GapIsSkippable(gap, more, |post| - |left| - 1);
  }

  lemma GapIsSkippable(gap: seq<string>, more: seq<string>, i: nat)
    requires AllSkippable(gap) && i < |gap + more|
    ensures i < |gap| ==> Skippable((gap + more)[i])
  {
    if i < |gap| {
      assert (gap + more)[i] == gap[i];
    }
  }

  lemma Regroup(a: seq<string>, b: seq<string>, c: seq<string>, d: seq<string>)
    ensures (a + (b + c)) + d == a + (b + (c + d))
  {
  }

  lemma TailOnly(tail: seq<string>, esc: char)
    ensures Print([], esc) + tail == tail == tail + []
  {
  }

  lemma PrintFirst(x: Item, xs: seq<Item>, tail: seq<string>, esc: char)
    ensures Print([x] + xs, esc) + tail == x.before + (Body(x, esc) + (Print(xs, esc) + tail))
  {
    assert ([x] + xs)[1..] == xs;
    Regroup(x.before, Body(x, esc), Print(xs, esc), tail);
  }

  /** What follows an instruction, if another one took a part of it: the next
      instruction's line is gone. */
  lemma NextLineIsGone(xs: seq<Item>, tail: seq<string>, docs: seq<string>, left: seq<string>, esc: char, lib: Libraries)
    requires AllRead(xs, esc, lib) && AllSkippable(tail)
    requires PastSomething(docs + (Print(xs, esc) + tail), left) && |left| < |Print(xs, esc) + tail|
    ensures xs != [] && |left| < |Print(xs, esc) + tail| - |xs[0].before|
  {
    if xs == [] {
      TailOnly(tail, esc);
      BeyondGap(docs, tail, [], left);
    } else {
      assert xs == [xs[0]] + xs[1..];
      PrintFirst(xs[0], xs[1..], tail, esc);
      BeyondGap(docs, xs[0].before, Body(xs[0], esc) + (Print(xs[1..], esc) + tail), left);
    }
  }

  /** Having taken too much, the rest is not read as it should be. */
  lemma RestGoesAstray(xs: seq<Item>, tail: seq<string>, docs: seq<string>, left: seq<string>, total: nat, esc: char, lib: Libraries)
    requires AllRead(xs, esc, lib) && AllSkippable(tail) && |Print(xs, esc) + tail| <= total
    requires PastSomething(docs + (Print(xs, esc) + tail), left) && |left| < |Print(xs, esc) + tail|
    ensures Parse(left, total, esc, lib) != Ok(Records(xs, total - |Print(xs, esc) + tail|, esc))
  {
    NextLineIsGone(xs, tail, docs, left, esc, lib);
    LinesAreAhead(left, total, esc, lib);
    var start := total - |Print(xs, esc) + tail|;
    assert Records(xs, start, esc)[0] == RecordOf(xs[0], start + |xs[0].before| + 1);
    assert LineOf(RecordOf(xs[0], start + |xs[0].before| + 1)) == start + |xs[0].before| + 1;
  }

  predicate OneDocAtMost(xs: seq<Item>) {
    forall i :: 0 <= i < |xs| ==> |xs[i].docs| <= 1
  }

  lemma ParseUnfold(rest: seq<string>, total: nat, esc: char, lib: Libraries)
    requires rest != [] && |rest| <= total
    ensures var r := ParseStep(rest, total - |rest| + 1, esc, lib);
      Parse(rest, total, esc, lib) == if r.Err? then Err(r.error) else Prepended(r.value.0, Parse(r.value.1, total, esc, lib))
  {
  }

  lemma PrependOne(a: Record, rest: Result<seq<Record>>, b: Record, more: seq<Record>)
    ensures Prepended([a], rest) == Ok([b] + more) <==> a == b && rest == Ok(more)
  {
    if rest.Ok? {
      assert ([a] + rest.value)[0] == a && ([a] + rest.value)[1..] == rest.value;
      assert ([b] + more)[0] == b && ([b] + more)[1..] == more;
    }
  }

  /** One step decides, with what is left after it. */
  lemma StepDecides(one: bool, record: Record, rest: seq<string>, post: seq<string>, more: seq<Record>, total: nat, esc: char, lib: Libraries)
    requires rest != [] && |rest| <= total && |post| <= total
    requires var r := ParseStep(rest, total - |rest| + 1, esc, lib);
      if one then r == Ok(([record], post))
      else r.Ok? ==> |r.value.0| == 1 && (r.value.0[0] != record || Parse(r.value.1, total, esc, lib) != Ok(more))
    ensures Parse(rest, total, esc, lib) == Ok([record] + more) <==> one && Parse(post, total, esc, lib) == Ok(more)
  {
    ParseUnfold(rest, total, esc, lib);
    var r := ParseStep(rest, total - |rest| + 1, esc, lib);
    if r.Ok? {
      assert r.value.0 == [r.value.0[0]];
      PrependOne(r.value.0[0], Parse(r.value.1, total, esc, lib), record, more);
    }
  }

  /** One instruction and what follows it. */
  lemma HeadThenRest(x: Item, xs: seq<Item>, tail: seq<string>, total: nat, esc: char, lib: Libraries)
    requires IsRead(x, esc, lib) && AllRead(xs, esc, lib) && AllSkippable(tail)
    requires |Body(x, esc) + (Print(xs, esc) + tail)| <= total
    ensures var post := Print(xs, esc) + tail;
      var rest := Body(x, esc) + post;
      var more := Records(xs, total - |post|, esc);
      Parse(rest, total, esc, lib) == Ok([RecordOf(x, total - |rest| + 1)] + more) <==>
        |x.docs| <= 1 && Parse(post, total, esc, lib) == Ok(more)
  {
    hide ParseStep, Parse, Body, Print, Records, RecordOf, AllRead, AllSkippable, DocLines, PastSomething;
    var post := Print(xs, esc) + tail;
    var rest := Body(x, esc) + post;
    var line := total - |rest| + 1;
    assert StepIs(x, esc, post, line, lib);
    var r := ParseStep(rest, line, esc, lib);
    if |x.docs| > 1 && r.Ok? && r.value.0[0] == RecordOf(x, line) {
      RestGoesAstray(xs, tail, DocLines(x.docs), r.value.1, total, esc, lib);
    }
    StepDecides(|x.docs| <= 1, RecordOf(x, line), rest, post, Records(xs, total - |post|, esc), total, esc, lib);
  }

  lemma RecordsFirst(x: Item, xs: seq<Item>, start: nat, esc: char)
    ensures Records([x] + xs, start, esc) ==
      [RecordOf(x, start + |x.before| + 1)] + Records(xs, start + |x.before| + |Body(x, esc)|, esc)
  {
    assert ([x] + xs)[1..] == xs;
  }

  lemma AllReadRest(x: Item, xs: seq<Item>, esc: char, lib: Libraries)
    requires AllRead([x] + xs, esc, lib)
    ensures IsRead(x, esc, lib) && AllRead(xs, esc, lib)
    ensures OneDocAtMost([x] + xs) <==> |x.docs| <= 1 && OneDocAtMost(xs)
  {
    var all := [x] + xs;
    assert all[0] == x;
    forall i | 0 <= i < |xs|
      ensures IsRead(xs[i], esc, lib) && (OneDocAtMost(all) ==> |xs[i].docs| <= 1)
    {
      assert all[i + 1] == xs[i];
    }
  }

  /** One instruction more. */
  lemma OneMoreItem(x: Item, xs: seq<Item>, tail: seq<string>, total: nat, esc: char, lib: Libraries)
    requires IsRead(x, esc, lib) && AllRead(xs, esc, lib) && AllSkippable(tail) && |Print([x] + xs, esc) + tail| <= total
    ensures var lines, post := Print([x] + xs, esc) + tail, Print(xs, esc) + tail;
      && |post| <= total
      && (Parse(lines, total, esc, lib) == Ok(Records([x] + xs, total - |lines|, esc)) <==>
            |x.docs| <= 1 && Parse(post, total, esc, lib) == Ok(Records(xs, total - |post|, esc)))
  {
    hide Parse, Print, Records, Body, RecordOf, AllRead, AllSkippable, StepIs;
    var lines, post := Print([x] + xs, esc) + tail, Print(xs, esc) + tail;
    PrintFirst(x, xs, tail, esc);
    RecordsFirst(x, xs, total - |lines|, esc);
    SkipBefore(x.before, Body(x, esc) + post, total, esc, lib);
    HeadThenRest(x, xs, tail, total, esc, lib);
  }

  lemma {:induction false} PrintThenRead(xs: seq<Item>, tail: seq<string>, total: nat, esc: char, lib: Libraries)
    requires AllRead(xs, esc, lib) && AllSkippable(tail) && |Print(xs, esc) + tail| <= total
    ensures Parse(Print(xs, esc) + tail, total, esc, lib) == Ok(Records(xs, total - |Print(xs, esc) + tail|, esc)) <==> OneDocAtMost(xs)
    decreases |xs|
  {
    if xs == [] {
      TailOnly(tail, esc);
      SkipBefore(tail, [], total, esc, lib);
    } else {
      var x, more := xs[0], xs[1..];
      assert xs == [x] + more;
      AllReadRest(x, more, esc, lib);
      OneMoreItem(x, more, tail, total, esc, lib);
      PrintThenRead(more, tail, total, esc, lib);
    }
  }

  /** Instructions printed in any layout, with blank and comment lines put in
      between, are read back as the same records in the same order, with the
      lines they start on, exactly when none of them has more than one
      here-document. */
  lemma PrintThenParse(xs: seq<Item>, tail: seq<string>, esc: char, lib: Libraries)
    requires AllNormal(xs, esc) && AllSkippable(tail) && IsEscape(esc)
    ensures var lines := Print(xs, esc) + tail;
      Parse(lines, |lines|, esc, lib) == Ok(Records(xs, 0, esc)) <==> OneDocAtMost(xs)
  {
    hide *;
    NormalFormsAreRead(xs, esc, lib);
    PrintThenRead(xs, tail, |Print(xs, esc) + tail|, esc, lib);
  }

  // -------------------------------------------------------------------------
  // Two here-documents
  // -------------------------------------------------------------------------

  const TWO_WORDS := ["<<A", "<<B"]

  /** RUN <<A <<B, with two empty bodies. */
  const TWO_DOCS := Item([], false, "RUN", [], TWO_WORDS, [Doc("A", false, [], [], ""), Doc("B", false, [], [], "")],
                         [Seg("", ["RUN"] + TWO_WORDS, "", [])])

  lemma SecondOpener()
    ensures OpenerAt("<<B") == Some(Opener(false, "B", 3)) && OpenerAt(" <<B") == None && Openers(" <<B") == [(false, "B")]
  {
    assert "<<B"[2..] == "B" && "<<B"[3..] == "" && "<<B"[2..3] == "B" && "B"[1..] == "" && " <<B"[1..] == "<<B";
    assert Span("B", IsIdentChar) == 1;
    assert OpenerAt("<<B") == Some(Opener(false, "B", 3));
    assert OpenerAt(" <<B") == None;
    assert Openers("<<B") == [(false, "B")];
  }

  lemma FirstOpener()
    ensures OpenerAt("<<A <<B") == Some(Opener(false, "A", 3))
  {
    var v := "<<A <<B";
    assert v[2..] == "A <<B" && v[2..][1..] == " <<B" && v[2..3] == "A";
    assert Span(" <<B", IsIdentChar) == 0;
    assert Span("A <<B", IsIdentChar) == 1;
  }

  lemma TwoWordsJoined()
    ensures JoinSpace(TWO_WORDS) == "<<A <<B"
  {
    assert TWO_WORDS[1..] == ["<<B"] && JoinSpace(["<<B"]) == "<<B";
  }

  lemma TwoOpeners()
    ensures JoinSpace(TWO_WORDS) == "<<A <<B" && Openers("<<A <<B") == [(false, "A"), (false, "B")]
  {
    TwoWordsJoined();
    SecondOpener();
    FirstOpener();
    hide Openers, JoinSpace, OpenerAt;
    var v := "<<A <<B";
    assert v[3..] == " <<B";
    OpenersUnfold(v);
  }

  lemma OpenersUnfold(v: string)
    requires v != "" && OpenerAt(v).Some?
    ensures var o := OpenerAt(v).value; Openers(v) == [(o.strip, o.tag)] + Openers(v[o.length..])
  {
  }

  lemma TwoDocsLayout(esc: char)
    requires IsEscape(esc)
    ensures IsLayout(TWO_DOCS.segs, esc) && AllWords(TWO_DOCS.segs) == Head(TWO_DOCS)
  {
    var x := TWO_DOCS;
    assert AllWords(x.segs) == ["RUN"] + TWO_WORDS + AllWords([]);
    assert Head(x) == ["RUN"] + ([] + TWO_WORDS);
    assert AreWords(["RUN"] + TWO_WORDS);
  }

  lemma TwoDocsTags()
    ensures Tags(TWO_DOCS.docs) == [(false, "A"), (false, "B")] && IsDoc(TWO_DOCS.docs[0]) && IsDoc(TWO_DOCS.docs[1])
  {
    var docs := TWO_DOCS.docs;
    assert docs[1..] == [Doc("B", false, [], [], "")] && docs[1..][1..] == [] && Tags(docs[1..]) == [(false, "B")];
  }

  lemma RunIsAName()
    ensures "RUN" in INSTRUCTIONS && "RUN" in HEREDOC_INSTRUCTIONS
  {
    assert INSTRUCTIONS[12] == "RUN" && HEREDOC_INSTRUCTIONS[2] == "RUN";
  }

  lemma TwoWordsNoFlag()
    ensures AreWords(TWO_WORDS) && FlagAt("<<A <<B").None?
  {
  }

  lemma NormalFormOf(x: Item, esc: char, value: string)
    requires x.before == [] && x.flags == [] && IsLayout(x.segs, esc) && AllWords(x.segs) == Head(x) && AreWords(x.tokens)
    requires x.name in HEREDOC_INSTRUCTIONS && x.name in INSTRUCTIONS && x.name != "ONBUILD"
    requires JoinSpace(x.tokens) == value && FlagAt(value).None? && value != "" && value[0] != '['
    requires (forall i :: 0 <= i < |x.docs| ==> IsDoc(x.docs[i])) && Tags(x.docs) == Openers(value)
    ensures NormalForm(x, esc)
  {
    hide IsLayout, AllWords, Head, AreWords, JoinSpace, FlagAt, IsDoc, Tags, Openers;
  }

  lemma TwoDocsAreNormal(esc: char)
    requires IsEscape(esc)
    ensures NormalForm(TWO_DOCS, esc)
  {
    TwoOpeners();
    TwoDocsLayout(esc);
    TwoDocsTags();
    TwoWordsNoFlag();
    RunIsAName();
    hide Openers, JoinSpace, IsLayout, AllWords, Head, Tags, IsDoc, FlagAt, AreWords, NormalForm;
    var x := TWO_DOCS;
    assert x.name == "RUN" && x.before == [] && x.flags == [] && x.tokens == TWO_WORDS && |x.docs| == 2;
    assert x.name != "ONBUILD" && "<<A <<B"[0] != '[';
    NormalFormOf(x, esc, "<<A <<B");
  }

  /** An instruction with two here-documents, and the file it does not come
      back from. */
  lemma TwoDocsDoNotComeBack(esc: char, lib: Libraries)
    requires IsEscape(esc)
    ensures NormalForm(TWO_DOCS, esc)
    ensures var lines := Print([TWO_DOCS], esc); Parse(lines, |lines|, esc, lib) != Ok(Records([TWO_DOCS], 0, esc))
  {
    TwoDocsAreNormal(esc);
    hide NormalForm, Parse, Print, Records;
    PrintThenParse([TWO_DOCS], [], esc, lib);
    assert Print([TWO_DOCS], esc) + [] == Print([TWO_DOCS], esc);
    assert |[TWO_DOCS][0].docs| == 2;
  }
}
