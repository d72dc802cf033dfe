/** The Dockerfile lexer: continuations, comments and here-documents. The
    functions work on the lines still to be read; the methods, like the
    program, on an index into all of them. */
module Dockerfile {
  import opened Resolver

  /** DockerfileSyntaxError, and the line it names. */
  datatype Error = UnknownInstruction(line: nat) | OnBuildWithoutInner(line: nat) | InvalidInner(line: nat) | UnterminatedHeredoc

  datatype Result<T> = Ok(value: T) | Err(error: Error)

  const INSTRUCTIONS := ["ADD", "ARG", "CMD", "COPY", "ENTRYPOINT", "ENV", "EXPOSE", "FROM", "HEALTHCHECK", "LABEL",
                         "MAINTAINER", "ONBUILD", "RUN", "SHELL", "STOPSIGNAL", "USER", "VOLUME", "WORKDIR"]

  const HEREDOC_INSTRUCTIONS := ["ADD", "COPY", "RUN"]

  // -------------------------------------------------------------------------
  // Strings
  // -------------------------------------------------------------------------

  /** str.isspace(), for one character */
  predicate IsSpace(c: char) {
    var n := c as int;
    9 <= n <= 13 || 28 <= n <= 32 || n == 0x85 || n == 0xA0 || n == 0x1680 || 0x2000 <= n <= 0x200A
    || n == 0x2028 || n == 0x2029 || n == 0x202F || n == 0x205F || n == 0x3000
  }

  predicate NotSpace(c: char) {
    !IsSpace(c)
  }

  predicate Spaces(s: string) {
    forall i :: 0 <= i < |s| ==> IsSpace(s[i])
  }

  function LStrip(s: string): string {
    if s != "" && IsSpace(s[0]) then LStrip(s[1..]) else s
  }

  function RStrip(s: string): string {
    if s != "" && IsSpace(s[|s| - 1]) then RStrip(s[..|s| - 1]) else s
  }

  function Strip(s: string): string {
    RStrip(LStrip(s))
  }

  /** line.lstrip("\t") */
  function LStripTabs(s: string): string {
    if s != "" && s[0] == '\t' then LStripTabs(s[1..]) else s
  }

  /** " ".join(words) */
  function JoinSpace(words: seq<string>): string {
    if words == [] then "" else if |words| == 1 then words[0] else words[0] + (" " + JoinSpace(words[1..]))
  }

  function UpperChar(c: char): char {
    if 'a' <= c <= 'z' then (c as int - 32) as char else c
  }

  function Upper(s: string): string {
    seq(|s|, i requires 0 <= i < |s| => UpperChar(s[i]))
  }

  predicate IsLetter(c: char) {
    'a' <= c <= 'z' || 'A' <= c <= 'Z'
  }

  predicate IsKeyChar(c: char) {
    IsLetter(c) || '0' <= c <= '9' || c == '_' || c == '-'
  }

  predicate IsQuote(c: char) {
    c == '"' || c == '\''
  }

  predicate IsIdentStart(c: char) {
    IsLetter(c) || c == '_'
  }

  predicate IsIdentChar(c: char) {
    IsIdentStart(c) || '0' <= c <= '9'
  }

  /** The longest prefix whose characters all pass. */
  function Span(s: string, ok: char -> bool): (n: nat)
    ensures n <= |s| && (forall i :: 0 <= i < n ==> ok(s[i])) && (n < |s| ==> !ok(s[n]))
  {
    if s != "" && ok(s[0]) then 1 + Span(s[1..], ok) else 0
  }

  // -------------------------------------------------------------------------
  // Lines
  // -------------------------------------------------------------------------

  /** A blank line, or a comment. */
  predicate Skippable(line: string) {
    var s := LStrip(line);
    s == "" || s[0] == '#'
  }

  function Trailing(s: string, c: char): nat {
    if s != "" && s[|s| - 1] == c then 1 + Trailing(s[..|s| - 1], c) else 0
  }

  /** _ends_with_escape: an odd number of escapes at the end. */
  predicate EndsWithEscape(line: string, esc: char) {
    Trailing(RStrip(line), esc) % 2 == 1
  }

  /** _strip_trailing_escape */
  function StripTrailingEscape(line: string, esc: char): string {
    var s := RStrip(line);
    RStrip(if s != "" && s[|s| - 1] == esc then s[..|s| - 1] else s)
  }

  function Skip(rest: seq<string>): (r: seq<string>)
    ensures |r| <= |rest| && (r != [] ==> !Skippable(r[0]))
  {
    if rest != [] && Skippable(rest[0]) then Skip(rest[1..]) else rest
  }

  /** The parts of a logical line, and the lines after it. */
  function Gather(rest: seq<string>, esc: char): (r: (seq<string>, seq<string>))
    requires rest != []
    ensures |r.1| < |rest|
    decreases |rest|
  {
    if !EndsWithEscape(rest[0], esc) then ([rest[0]], rest[1..])
    else
      var first, more := StripTrailingEscape(rest[0], esc), Skip(rest[1..]);
      if more == [] then ([first], []) else var (parts, after) := Gather(more, esc); ([first] + parts, after)
  }

  function Stripped(parts: seq<string>): seq<string> {
    seq(|parts|, i requires 0 <= i < |parts| => Strip(parts[i]))
  }

  function LogicalLine(parts: seq<string>): string {
    Strip(JoinSpace(Stripped(parts)))
  }

  /** ^\s*(\S+)\s*(.*)$ */
  function SplitFirst(text: string): (string, string) {
    var s := LStrip(text);
    var n := Span(s, NotSpace);
    (s[..n], LStrip(s[n..]))
  }

  // -------------------------------------------------------------------------
  // Flags, here-documents, exec form
  // -------------------------------------------------------------------------

  /** What the lexer leaves to shlex (a quoted token, and how much of the
      source it took) and to json. */
  datatype Libraries = Libraries(shlex: string -> Option<(string, nat)>, json: string -> Option<seq<string>>)

  /** _FLAG_RE: the key, the value if there is an "=", and how far it goes. */
  datatype Flag = Flag(key: string, val: Option<string>, end: nat)

  function FlagIn(t: string): (r: Option<Flag>)
    ensures r.Some? ==> 0 < r.value.end <= |t|
    ensures r.Some? && r.value.val.Some? ==> |r.value.val.value| < r.value.end
  {
    if |t| < 3 || t[..2] != "--" || !IsLetter(t[2]) then None
    else
      var n := 2 + Span(t[2..], IsKeyChar);
      if n == |t| || IsSpace(t[n]) then Some(Flag(t[2..n], None, n))
      else if t[n] != '=' then None
      else
        var m := n + 1 + Span(t[n + 1..], NotSpace);
        Some(Flag(t[2..n], Some(t[n + 1..m]), m))
  }

  /** The same, past any leading white space. */
  function FlagAt(text: string): (r: Option<Flag>)
    ensures r.Some? ==> 0 < r.value.end <= |text|
    ensures r.Some? && r.value.val.Some? ==> |r.value.val.value| < r.value.end
  {
    LStripShrinks(text);
    match FlagIn(LStrip(text))
    case None => None
    case Some(f) => Some(f.(end := |text| - |LStrip(text)| + f.end))
  }

  lemma {:induction false} LStripShrinks(s: string)
    ensures |LStrip(s)| <= |s| && s[|s| - |LStrip(s)|..] == LStrip(s) && Spaces(s[..|s| - |LStrip(s)|])
  {
    if s != "" && IsSpace(s[0]) {
      LStripShrinks(s[1..]);
    }
  }

  /** text[n:] */
  function From(text: string, n: nat): string {
    if n <= |text| then text[n..] else ""
  }

  /** A flag's value, and the text after it; a quoted value is shlex's. */
  function Took(text: string, f: Flag, lib: Libraries): (r: (string, string))
    requires 0 < f.end <= |text| && (f.val.Some? ==> |f.val.value| < f.end)
    ensures |r.1| < |text|
  {
    if f.val.None? then ("", text[f.end..])
    else
      var val, at := f.val.value, f.end - |f.val.value|;
      if val == "" || !IsQuote(val[0]) || lib.shlex(text[at..]).None? then (val, text[f.end..])
      else (lib.shlex(text[at..]).value.0, From(text, at + lib.shlex(text[at..]).value.1))
  }

  /** _parse_flags */
  function ParseFlags(text: string, lib: Libraries): (map<string, string>, string)
    decreases |text|
  {
    match FlagAt(text)
    case None => (map[], text)
    case Some(f) =>
      var (val, rest) := Took(text, f, lib);
      var (more, left) := ParseFlags(rest, lib);
      (map[f.key := val] + more, left)
  }

  /** _HEREDOC_RE: strip_indent, the tag, and the opener's length. */
  datatype Opener = Opener(strip: bool, tag: string, length: nat)

  function OpenerAt(s: string): (r: Option<Opener>)
    ensures r.Some? ==> 0 < r.value.length <= |s|
  {
    if |s| < 3 || s[..2] != "<<" then None
    else
      var strip := s[2] == '-';
      var p := if strip then 3 else 2;
      var quoted := p < |s| && IsQuote(s[p]);
      var q := if quoted then p + 1 else p;
      if q >= |s| || !IsIdentStart(s[q]) then None
      else
        var n := q + Span(s[q..], IsIdentChar);
        if quoted && (n >= |s| || s[n] != s[p]) then None
        else Some(Opener(strip, s[q..n], if quoted then n + 1 else n))
  }

  /** _extract_heredoc_tags */
  function Openers(value: string): seq<(bool, string)>
    decreases |value|
  {
    if value == "" then []
    else
      match OpenerAt(value)
      case None => Openers(value[1..])
      case Some(o) => [(o.strip, o.tag)] + Openers(value[o.length..])
  }

  /** Does the line end the body? */
  predicate Closes(line: string, tag: string, strip: bool) {
    var l := if strip then LStripTabs(line) else line;
    l == tag || RStrip(l) == tag
  }

  function BodyLine(line: string, strip: bool): string {
    if strip then LStripTabs(line) else line
  }

  /** "\n".join(body) + ("\n" if body else "") */
  function Text(body: seq<string>): string {
    if body == [] then "" else body[0] + "\n" + Text(body[1..])
  }

  /** _collect_heredoc_body: the body's lines, and those after the tag. */
  function Collect(rest: seq<string>, tag: string, strip: bool): (r: Option<(seq<string>, seq<string>)>)
    ensures r.Some? ==> |r.value.1| < |rest|
  {
    if rest == [] then None
    else if Closes(rest[0], tag, strip) then Some(([], rest[1..]))
    else
      match Collect(rest[1..], tag, strip)
      case None => None
      case Some((body, after)) => Some(([BodyLine(rest[0], strip)] + body, after))
  }

  datatype HereDoc = HereDoc(tag: string, strip: bool, body: string)

  function SkipOneLine(rest: seq<string>): seq<string> {
    if rest == [] then [] else rest[1..]
  }

  /** The bodies of an instruction's here-documents. Each one is looked for a
      line after the index the one before it returned. */
  function Docs(rest: seq<string>, tags: seq<(bool, string)>): (r: Option<(seq<HereDoc>, seq<string>)>)
    requires tags != []
    ensures r.Some? ==> |r.value.1| < |rest|
    decreases |tags|
  {
    match Collect(rest, tags[0].1, tags[0].0)
    case None => None
    case Some((body, after)) =>
      var doc := HereDoc(tags[0].1, tags[0].0, Text(body));
      if |tags| == 1 then Some(([doc], after))
      else
        match Docs(SkipOneLine(after), tags[1..])
        case None => None
        case Some((docs, last)) => Some(([doc] + docs, last))
  }

  datatype Value = Shell(text: string) | Exec(words: seq<string>)

  /** _try_exec_form */
  function ValueOf(value: string, lib: Libraries): Value {
    if value != "" && value[0] == '[' && value[|value| - 1] == ']' && lib.json(value).Some? then Exec(lib.json(value).value)
    else Shell(value)
  }

  // -------------------------------------------------------------------------
  // _parse_instructions
  // -------------------------------------------------------------------------

  datatype Instr = Instr(name: string, flags: map<string, string>, value: Value, docs: seq<HereDoc>, line: nat, raw: string)

  datatype Record = Plain(instr: Instr) | OnBuild(inner: Instr)

  /** One logical line; after are the lines that follow it. */
  function ParseOne(text: string, line: nat, after: seq<string>, lib: Libraries): (r: Result<(Record, seq<string>)>)
    ensures r.Ok? ==> |r.value.1| <= |after|
  {
    var (word, rest) := SplitFirst(text);
    var name := Upper(word);
    if name !in INSTRUCTIONS then Err(UnknownInstruction(line))
    else if name != "ONBUILD" then
      match ParseNamed(name, rest, text, line, after, lib)
      case None => Err(UnterminatedHeredoc)
      case Some((instr, left)) => Ok((Plain(instr), left))
    else
      var (innerWord, innerRest) := SplitFirst(rest);
      var inner := Upper(innerWord);
      if innerWord == "" then Err(OnBuildWithoutInner(line))
      else if inner !in INSTRUCTIONS || inner == "ONBUILD" then Err(InvalidInner(line))
      else
        match ParseNamed(inner, innerRest, text, line, after, lib)
        case None => Err(UnterminatedHeredoc)
        case Some((instr, left)) => Ok((OnBuild(instr), left))
  }

  function ParseNamed(name: string, rest: string, raw: string, line: nat, after: seq<string>, lib: Libraries)
    : (r: Option<(Instr, seq<string>)>)
    ensures r.Some? ==> |r.value.1| <= |after|
  {
    var (flags, left) := ParseFlags(rest, lib);
    var value := Strip(left);
    var tags := if name in HEREDOC_INSTRUCTIONS then Openers(value) else [];
    if tags == [] then Some((Instr(name, flags, ValueOf(value, lib), [], line, raw), after))
    else
      match Docs(after, tags)
      case None => None
      case Some((docs, last)) => Some((Instr(name, flags, ValueOf(value, lib), docs, line, raw), last))
  }

  /** One round: no record for a blank line or a comment, or one; and what is
      left, which is always less. */
  function ParseStep(rest: seq<string>, line: nat, esc: char, lib: Libraries): (r: Result<(seq<Record>, seq<string>)>)
    requires rest != []
    ensures r.Ok? ==> |r.value.1| < |rest|
  {
    if Skippable(rest[0]) then Ok(([], rest[1..]))
    else
      var (parts, after) := Gather(rest, esc);
      var text := LogicalLine(parts);
      if text == "" then Ok(([], after))
      else
        match ParseOne(text, line, after, lib)
        case Err(e) => Err(e)
        case Ok((record, left)) => Ok(([record], left))
  }

  /** The instructions in the lines still to be read, of total in all. */
  function Parse(rest: seq<string>, total: nat, esc: char, lib: Libraries): Result<seq<Record>>
    requires |rest| <= total
    decreases |rest|
  {
    if rest == [] then Ok([])
    else
      match ParseStep(rest, total - |rest| + 1, esc, lib)
      case Err(e) => Err(e)
      case Ok((records, left)) => Prepended(records, Parse(left, total, esc, lib))
  }

  function Prepended(done: seq<Record>, rest: Result<seq<Record>>): Result<seq<Record>> {
    if rest.Ok? then Ok(done + rest.value) else rest
  }

  // -------------------------------------------------------------------------
  // The lexer as the program runs it
  // -------------------------------------------------------------------------

  /** lines[i:] */
  function Rest(lines: seq<string>, i: nat): seq<string> {
    if i <= |lines| then lines[i..] else []
  }

  function Following(parts: seq<string>, r: (seq<string>, seq<string>)): (seq<string>, seq<string>) {
    (parts + r.0, r.1)
  }

  lemma FollowingTwice(a: seq<string>, b: seq<string>, r: (seq<string>, seq<string>))
    ensures Following(a, Following(b, r)) == Following(a + b, r) && Following([], r) == r
  {
    assert a + (b + r.0) == a + b + r.0 && [] + r.0 == r.0;
  }

  lemma GatherStep(lines: seq<string>, i: nat, esc: char)
    requires i < |lines| && EndsWithEscape(lines[i], esc)
    ensures var first, more := StripTrailingEscape(lines[i], esc), Skip(lines[i + 1..]);
      Gather(lines[i..], esc) == if more == [] then ([first], []) else Following([first], Gather(more, esc))
  {
    assert lines[i..][1..] == lines[i + 1..];
  }

  lemma GatherLast(lines: seq<string>, i: nat, esc: char)
    requires i < |lines| && !EndsWithEscape(lines[i], esc)
    ensures Gather(lines[i..], esc) == ([lines[i]], lines[i + 1..])
  {
    assert lines[i..][1..] == lines[i + 1..];
  }

  /** Continuations: i is the last line taken, or the end if there is none. */
  method GatherLines(lines: seq<string>, start: nat, esc: char) returns (parts: seq<string>, i: nat)
    requires start < |lines|
    ensures start <= i <= |lines| && Gather(lines[start..], esc) == (parts, Rest(lines, i + 1))
  {
    hide Gather, EndsWithEscape, StripTrailingEscape, Skip;
    parts, i := [], start;
    var cur := lines[i];
    FollowingTwice([], [], Gather(lines[start..], esc));
    while EndsWithEscape(cur, esc)
      invariant start <= i < |lines| && cur == lines[i]
      invariant Gather(lines[start..], esc) == Following(parts, Gather(lines[i..], esc))
      decreases |lines| - i
    {
      var first := StripTrailingEscape(cur, esc);
      GatherStep(lines, i, esc);
      i := SkipLines(lines, i + 1);
      if i < |lines| {
        FollowingTwice(parts, [first], Gather(lines[i..], esc));
        cur := lines[i];
      }
      parts := parts + [first];
      if i == |lines| {
        return;
      }
    }
    parts := parts + [cur];
    GatherLast(lines, i, esc);
  }

  method SkipLines(lines: seq<string>, start: nat) returns (i: nat)
    requires start <= |lines|
    ensures start <= i <= |lines| && Skip(lines[start..]) == lines[i..]
  {
    i := start;
    while i < |lines| && Skippable(lines[i])
      invariant start <= i <= |lines| && Skip(lines[start..]) == Skip(lines[i..])
    {
      assert lines[i..][1..] == lines[i + 1..];
      i := i + 1;
    }
  }

  /** What has been read already, in front of what is read next. */
  function After<T>(done: seq<T>, r: Option<(seq<T>, seq<string>)>): Option<(seq<T>, seq<string>)> {
    if r.None? then None else Some((done + r.value.0, r.value.1))
  }

  lemma AfterNothing<T>(r: Option<(seq<T>, seq<string>)>)
    ensures After([], r) == r
  {
    if r.Some? {
      assert [] + r.value.0 == r.value.0;
    }
  }

  lemma AfterSome<T>(done: seq<T>, left: seq<string>)
    ensures After(done, Some(([], left))) == Some((done, left))
  {
    assert done + [] == done;
  }

  lemma AfterTwice<T>(a: seq<T>, b: seq<T>, r: Option<(seq<T>, seq<string>)>)
    ensures After(a, After(b, r)) == After(a + b, r)
  {
    if r.Some? {
      assert a + (b + r.value.0) == a + b + r.value.0;
    }
  }

  lemma CollectOne(first: string, more: seq<string>, tag: string, strip: bool)
    ensures Collect([first] + more, tag, strip) ==
      if Closes(first, tag, strip) then Some(([], more)) else After([BodyLine(first, strip)], Collect(more, tag, strip))
  {
    assert ([first] + more)[1..] == more;
  }

  lemma CollectNone(tag: string, strip: bool)
    ensures Collect([], tag, strip).None?
  {
  }

  lemma AfterNone<T>(done: seq<T>)
    ensures After(done, None).None?
  {
  }

  /** _collect_heredoc_body: the body, and the index past the closing tag. */
  method CollectHeredocBody(lines: seq<string>, start: nat, tag: string, strip: bool) returns (r: Option<(seq<string>, nat)>)
    ensures var body := Collect(Rest(lines, start), tag, strip);
      if body.None? then r.None?
      else r.Some? && r.value.0 == body.value.0 && start < r.value.1 <= |lines| && body.value.1 == lines[r.value.1..]
  {
    hide Closes, BodyLine, Collect, After;
    var body: seq<string> := [];
    var i := start;
    AfterNothing(Collect(Rest(lines, i), tag, strip));
    while i < |lines|
      invariant start <= i && (i <= |lines| || i == start)
      invariant Collect(Rest(lines, start), tag, strip) == After(body, Collect(Rest(lines, i), tag, strip))
      decreases |lines| - i
    {
      assert lines[i..] == [lines[i]] + lines[i + 1..];
      CollectOne(lines[i], lines[i + 1..], tag, strip);
      if Closes(lines[i], tag, strip) {
        AfterSome(body, lines[i + 1..]);
        return Some((body, i + 1));
      }
      AfterTwice(body, [BodyLine(lines[i], strip)], Collect(Rest(lines, i + 1), tag, strip));
      body := body + [BodyLine(lines[i], strip)];
      i := i + 1;
    }
    CollectNone(tag, strip);
    AfterNone(body);
    r := None;
  }

  lemma DocsStep(rest: seq<string>, tags: seq<(bool, string)>)
    requires tags != []
    ensures var first := Collect(rest, tags[0].1, tags[0].0);
      Docs(rest, tags) ==
        if first.None? then None
        else
          var doc := HereDoc(tags[0].1, tags[0].0, Text(first.value.0));
          if |tags| == 1 then Some(([doc], first.value.1)) else After([doc], Docs(SkipOneLine(first.value.1), tags[1..]))
  {
  }

  /** What is still to come of an instruction's here-documents, before which
      index the last one ended. */
  ghost function Remaining(lines: seq<string>, i: nat, tags: seq<(bool, string)>): Option<(seq<HereDoc>, seq<string>)>
    requires i <= |lines|
  {
    if tags == [] then Some(([], lines[i..])) else Docs(Rest(lines, i + 1), tags)
  }

  lemma RemainingStep(lines: seq<string>, i: nat, tags: seq<(bool, string)>, body: Option<(seq<string>, nat)>)
    requires i <= |lines| && tags != []
    requires var b := Collect(Rest(lines, i + 1), tags[0].1, tags[0].0);
      if b.None? then body.None?
      else body.Some? && body.value.0 == b.value.0 && body.value.1 <= |lines| && b.value.1 == lines[body.value.1..]
    ensures Remaining(lines, i, tags) ==
      if body.None? then None
      else After([HereDoc(tags[0].1, tags[0].0, Text(body.value.0))], Remaining(lines, body.value.1, tags[1..]))
  {
    DocsStep(Rest(lines, i + 1), tags);
    if body.Some? {
      assert SkipOneLine(lines[body.value.1..]) == Rest(lines, body.value.1 + 1);
      var doc := HereDoc(tags[0].1, tags[0].0, Text(body.value.0));
      assert |tags| == 1 ==> tags[1..] == [];
      assert [doc] + [] == [doc];
    }
  }

  /** The here-documents of an instruction whose last line is at. The next
      body is looked for one past the index the last one returned. */
  method CollectAll(lines: seq<string>, at: nat, tags: seq<(bool, string)>) returns (r: Option<(seq<HereDoc>, nat)>)
    requires at <= |lines| && tags != []
    ensures var docs := Docs(Rest(lines, at + 1), tags);
      if docs.None? then r.None?
      else r.Some? && r.value.0 == docs.value.0 && at < r.value.1 <= |lines| && docs.value.1 == lines[r.value.1..]
  {
    hide Docs, Collect, Text, After;
    var docs: seq<HereDoc> := [];
    var i := at;
    var k := 0;
    AfterNothing(Docs(Rest(lines, at + 1), tags));
    assert tags[0..] == tags;
    while k < |tags|
      invariant 0 <= k <= |tags| && at <= i <= |lines| && (k > 0 ==> at < i)
      invariant Docs(Rest(lines, at + 1), tags) == After(docs, Remaining(lines, i, tags[k..]))
    {
      var body := CollectHeredocBody(lines, i + 1, tags[k].1, tags[k].0);
      RemainingStep(lines, i, tags[k..], body);
      if body.None? {
        AfterNone(docs);
        return None;
      }
      var doc := HereDoc(tags[k].1, tags[k].0, Text(body.value.0));
      assert tags[k..][1..] == tags[k + 1..];
      AfterTwice(docs, [doc], Remaining(lines, body.value.1, tags[k + 1..]));
      docs, i, k := docs + [doc], body.value.1, k + 1;
    }
    AfterSome(docs, lines[i..]);
    r := Some((docs, i));
  }

  function Over(flags: map<string, string>, r: (map<string, string>, string)): (map<string, string>, string) {
    (flags + r.0, r.1)
  }

  lemma OneMoreFlag(flags: map<string, string>, text: string, lib: Libraries)
    requires FlagAt(text).Some?
    ensures var f := FlagAt(text).value;
      var (val, rest) := Took(text, f, lib);
      Over(flags, ParseFlags(text, lib)) == Over(flags[f.key := val], ParseFlags(rest, lib))
  {
    var f := FlagAt(text).value;
    var (val, rest) := Took(text, f, lib);
    var more := ParseFlags(rest, lib).0;
    assert ParseFlags(text, lib) == (map[f.key := val] + more, ParseFlags(rest, lib).1);
    OverTwice(flags, f.key, val, more);
  }

  lemma OverTwice(flags: map<string, string>, key: string, val: string, more: map<string, string>)
    ensures flags + (map[key := val] + more) == flags[key := val] + more
  {
  }

  method PullFlags(text: string, lib: Libraries) returns (flags: map<string, string>, rest: string)
    ensures (flags, rest) == ParseFlags(text, lib)
  {
    flags, rest := map[], text;
    assert map[] + ParseFlags(text, lib).0 == ParseFlags(text, lib).0;
    var f := FlagAt(rest);
    while f.Some?
      invariant f == FlagAt(rest) && Over(flags, ParseFlags(rest, lib)) == ParseFlags(text, lib)
      decreases |rest|
    {
      OneMoreFlag(flags, rest, lib);
      var (val, next) := Took(rest, f.value, lib);
      flags, rest := flags[f.value.key := val], next;
      f := FlagAt(rest);
    }
    assert flags + map[] == flags;
  }

  /** _parse_instructions */
  method ParseInstructions(lines: seq<string>, start: nat, esc: char, lib: Libraries) returns (r: Result<seq<Record>>)
    requires start <= |lines|
    ensures r == Parse(lines[start..], |lines|, esc, lib)
  {
    var done: seq<Record> := [];
    var i := start;
    PrependedNothing(Parse(lines[start..], |lines|, esc, lib));
    while i < |lines|
      invariant start <= i
      invariant Parse(lines[start..], |lines|, esc, lib) == Prepended(done, Parse(Rest(lines, i), |lines|, esc, lib))
      decreases |lines| - i
    {
      OneRound(lines, i, esc, lib);
      var round := Round(lines, i, esc, lib);
      if round.Err? {
        return Err(round.error);
      }
      var (more, next) := round.value;
      PrependedTwice(done, more, Parse(Rest(lines, next), |lines|, esc, lib));
      done, i := done + more, next;
    }
    r := Ok(done);
    assert done + [] == done;
  }

  lemma OneRound(lines: seq<string>, i: nat, esc: char, lib: Libraries)
    requires i < |lines|
    ensures var r := ParseStep(lines[i..], i + 1, esc, lib);
      Parse(Rest(lines, i), |lines|, esc, lib) ==
        if r.Err? then Err(r.error) else Prepended(r.value.0, Parse(r.value.1, |lines|, esc, lib))
  {
  }

  lemma PrependedNothing(rest: Result<seq<Record>>)
    ensures Prepended([], rest) == rest
  {
    if rest.Ok? {
      assert [] + rest.value == rest.value;
    }
  }

  lemma PrependedTwice(a: seq<Record>, b: seq<Record>, rest: Result<seq<Record>>)
    ensures Prepended(a, Prepended(b, rest)) == Prepended(a + b, rest)
  {
    if rest.Ok? {
      assert a + (b + rest.value) == a + b + rest.value;
    }
  }

  /** One round of the loop: the line index always moves on. */
  method Round(lines: seq<string>, i: nat, esc: char, lib: Libraries) returns (r: Result<(seq<Record>, nat)>)
    requires i < |lines|
    ensures var step := ParseStep(lines[i..], i + 1, esc, lib);
      if step.Err? then r == Err(step.error)
      else r.Ok? && r.value.0 == step.value.0 && i < r.value.1 && step.value.1 == Rest(lines, r.value.1)
  {
    assert lines[i..][1..] == lines[i + 1..];
    if Skippable(lines[i]) {
      return Ok(([], i + 1));
    }
    var parts, last := GatherLines(lines, i, esc);
    var text := LogicalLine(parts);
    if text == "" {
      return Ok(([], last + 1));
    }
    r := ParseLine(lines, last, text, i + 1, lib);
  }

  /** One logical line, whose last physical line is at: the record, and the
      index to go on from. */
  method ParseLine(lines: seq<string>, at: nat, text: string, line: nat, lib: Libraries) returns (r: Result<(seq<Record>, nat)>)
    requires at <= |lines|
    ensures var one := ParseOne(text, line, Rest(lines, at + 1), lib);
      if one.Err? then r == Err(one.error)
      else r.Ok? && r.value.0 == [one.value.0] && at < r.value.1 && one.value.1 == Rest(lines, r.value.1)
  {
    var (word, rest) := SplitFirst(text);
    var name := Upper(word);
    if name !in INSTRUCTIONS {
      return Err(UnknownInstruction(line));
    }
    var onBuild := name == "ONBUILD";
    if onBuild {
      var inner := SplitFirst(rest);
      word, rest := inner.0, inner.1;
      if word == "" {
        return Err(OnBuildWithoutInner(line));
      }
      name := Upper(word);
      if name !in INSTRUCTIONS || name == "ONBUILD" {
        return Err(InvalidInner(line));
      }
    }
    var flags, left := PullFlags(rest, lib);
    var value := Strip(left);
    var tags := if name in HEREDOC_INSTRUCTIONS then Openers(value) else [];
    var docs: seq<HereDoc> := [];
    var i := at + 1;
    if tags != [] {
      var all := CollectAll(lines, at, tags);
      if all.None? {
        return Err(UnterminatedHeredoc);
      }
      docs, i := all.value.0, all.value.1;
    }
    var instr := Instr(name, flags, ValueOf(value, lib), docs, line, text);
    r := Ok(([if onBuild then OnBuild(instr) else Plain(instr)], i));
  }
}
