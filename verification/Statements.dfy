/** The migration runner's SQL statement splitter. */
module Statements {
  import opened Text

  // ----- Tokens -----

  predicate IsTagStart(c: char) {
    'A' <= c <= 'Z' || 'a' <= c <= 'z' || c == '_'
  }

  predicate IsTagPart(c: char) {
    IsTagStart(c) || '0' <= c <= '9'
  }

  function TagRun(s: string): (n: nat)
    ensures n <= |s|
  {
    if s == "" || !IsTagPart(s[0]) then 0 else 1 + TagRun(s[1..])
  }

  /** Length of the dollar-quote tag (`$$` or `$name$`) at the start of `s`; zero when there is none. */
  function TagLength(s: string): (n: nat)
    ensures n <= |s|
  {
    if |s| < 2 || s[0] != '$' then 0
    else if s[1] == '$' then 2
    else if !IsTagStart(s[1]) then 0
    else
      var run := TagRun(s[1..]);
      if 1 + run < |s| && s[1 + run] == '$' then run + 2 else 0
  }

  /** What follows an opening quote, up to and including the closing one. */
  function QuoteTail(s: string, quote: char): (n: nat)
    ensures n <= |s|
  {
    if s == "" then 0
    else if s[0] != quote then 1 + QuoteTail(s[1..], quote)
    else if |s| > 1 && s[1] == quote then 2 + QuoteTail(s[2..], quote)
    else 1
  }

  /** Whether the closing quote exists. */
  predicate QuoteCloses(s: string, quote: char) {
    if s == "" then false
    else if s[0] != quote then QuoteCloses(s[1..], quote)
    else if |s| > 1 && s[1] == quote then QuoteCloses(s[2..], quote)
    else true
  }

  /** One step of the scanner: how much input it consumes, what it adds to the current
      statement, and whether the token or comment ended before the input did. */
  datatype Lexeme = Lexeme(length: nat, text: string, closed: bool)

  function NextLexeme(s: string): (l: Lexeme)
    requires s != ""
    ensures 0 < l.length <= |s|
  {
    if "--" <= s then
      match IndexOf(s, "\n")
      case None => Lexeme(|s|, "", false)
      case Some(end) => Lexeme(end, "", true)
    else if "/*" <= s then
      match IndexOf(s[2..], "*/")
      case None => Lexeme(|s|, " ", false)
      case Some(end) => Lexeme(2 + end + 2, " ", true)
    else if s[0] == '\'' || s[0] == '"' then
      var n := 1 + QuoteTail(s[1..], s[0]);
      Lexeme(n, s[..n], QuoteCloses(s[1..], s[0]))
    else if TagLength(s) > 0 then
      var tag := s[..TagLength(s)];
      match IndexOf(s[|tag|..], tag)
      case None => Lexeme(|s|, s, false)
      case Some(end) => Lexeme(|tag| + end + |tag|, s[..|tag| + end + |tag|], true)
    else
      Lexeme(1, s[..1], true)
  }

  // ----- Specification -----

  function Flush(body: string): seq<string> {
    if TrimSpace(body) == "" then [] else [TrimSpace(body)]
  }

  /** The statements of `s` when `current` has already been collected. */
  function SplitFrom(current: string, s: string): seq<string>
    decreases |s|
  {
    if s == "" then Flush(current)
    else if s[0] == ';' then Flush(current) + SplitFrom("", s[1..])
    else SplitFrom(current + NextLexeme(s).text, s[NextLexeme(s).length..])
  }

  function Split(s: string): seq<string> {
    SplitFrom("", s)
  }

  // ----- The scanner itself -----

  method QuotedLength(s: string) returns (n: nat)
    requires s != ""
    ensures n == 1 + QuoteTail(s[1..], s[0])
  {
    var quote := s[0];
    var i := 1;
    while i < |s|
      invariant 1 <= i <= |s|
      invariant i + QuoteTail(s[i..], quote) == 1 + QuoteTail(s[1..], quote)
    {
      if s[i] != quote {
        assert s[i..][1..] == s[i + 1..];
        i := i + 1;
        continue;
      }
      if i + 1 < |s| && s[i + 1] == quote {
        assert s[i..][2..] == s[i + 2..];
        i := i + 2;
        continue;
      }
      return i + 1;
    }
    return |s|;
  }

  function DollarQuotedLength(s: string, tag: string): nat
    requires tag <= s
  {
    match IndexOf(s[|tag|..], tag)
    case None => |s|
    case Some(end) => |tag| + end + |tag|
  }

  /** The cases of the scanner's switch other than the semicolon: how far to move, and what to
      write to the current statement. */
  method ScanToken(rest: string) returns (length: nat, text: string)
    requires rest != ""
    ensures length == NextLexeme(rest).length && text == NextLexeme(rest).text
  {
    if "--" <= rest {
      match IndexOf(rest, "\n") {
        case None => return |rest|, "";
        case Some(end) => return end, "";  // the newline is left to part its neighbours
      }
    } else if "/*" <= rest {
      match IndexOf(rest[2..], "*/") {
        case None => return |rest|, " ";
        case Some(end) => return 2 + end + 2, " ";
      }
    } else if rest[0] == '\'' || rest[0] == '"' {
      length := QuotedLength(rest);
      return length, rest[..length];
    } else if rest[0] == '$' && TagLength(rest) > 0 {
      length := DollarQuotedLength(rest, rest[..TagLength(rest)]);
      return length, rest[..length];
    }
    return 1, [rest[0]];
  }

  /** The scanner's flush closure. */
  method FlushStatement(statements: seq<string>, current: string) returns (flushed: seq<string>)
    ensures flushed == statements + Flush(current)
  {
    var statement := TrimSpace(current);
    flushed := if statement != "" then statements + [statement] else statements;
  }

  method SplitStatements(sql: string) returns (statements: seq<string>)
    ensures statements == Split(sql)
  {
    hide Flush;
    statements := [];
    var current := "";
    var i := 0;
    while i < |sql|
      invariant 0 <= i <= |sql|
      invariant statements + SplitFrom(current, sql[i..]) == Split(sql)
    {
      var rest := sql[i..];
      if rest[0] == ';' {
        statements := FlushStatement(statements, current);
        current := "";
        i := i + 1;
        assert sql[i..] == rest[1..];
      } else {
        var length, text := ScanToken(rest);
        current := current + text;
        i := i + length;
        assert sql[i..] == rest[length..];
      }
    }
    statements := FlushStatement(statements, current);
  }

  // ----- What a statement looks like -----

  /** Scanning `t` copies every character of it: no top-level semicolon, no comment. */
  predicate Clean(t: string)
    decreases |t|
  {
    t == "" ||
    (t[0] != ';' && NextLexeme(t).text == t[..NextLexeme(t).length] && Clean(t[NextLexeme(t).length..]))
  }

  /** Scanning `t` ends outside every quote and comment. */
  predicate Closed(t: string)
    decreases |t|
  {
    t == "" ||
    (if t[0] == ';' then Closed(t[1..])
     else NextLexeme(t).closed && Closed(t[NextLexeme(t).length..]))
  }

  lemma {:induction false} CleanIsOneStatement(current: string, t: string)
    requires Clean(t)
    ensures SplitFrom(current, t) == Flush(current + t)
    decreases |t|
  {
    if t == "" {
      assert current + t == current;
    } else {
      var l := NextLexeme(t);
      CleanIsOneStatement(current + l.text, t[l.length..]);
      assert current + l.text + t[l.length..] == current + t;
    }
  }

  // ----- Tokens do not look past where they end -----

  lemma {:induction false} TagRunLocal(a: string, u: string)
    requires u != "" ==> !IsTagPart(u[0])
    ensures TagRun(a + u) == TagRun(a)
  {
    if a != "" {
      assert (a + u)[1..] == a[1..] + u;
      TagRunLocal(a[1..], u);
    } else {
      assert a + u == u;
    }
  }

  lemma {:induction false} QuoteLocal(a: string, u: string, quote: char)
    requires QuoteCloses(a, quote)
    requires u != "" ==> u[0] != quote
    ensures QuoteCloses(a + u, quote) && QuoteTail(a + u, quote) == QuoteTail(a, quote)
  {
    if a[0] != quote {
      assert (a + u)[1..] == a[1..] + u;
      QuoteLocal(a[1..], u, quote);
    } else if |a| > 1 && a[1] == quote {
      assert (a + u)[2..] == a[2..] + u;
      QuoteLocal(a[2..], u, quote);
    }
  }

  lemma {:induction false} IndexLocal(a: string, u: string, pattern: string)
    requires IndexOf(a, pattern).Some?
    ensures IndexOf(a + u, pattern) == IndexOf(a, pattern)
  {
    if pattern <= a {
      assert pattern <= a + u;
    } else {
      assert !(pattern <= a + u);
      assert (a + u)[1..] == a[1..] + u;
      IndexLocal(a[1..], u, pattern);
    }
  }

  lemma TagLocal(a: string, u: string)
    requires a != "" && u != "" && u[0] == ';'
    ensures TagLength(a + u) == TagLength(a)
  {
    assert (a + u)[1..] == a[1..] + u;
    TagRunLocal(a[1..], u);
  }

  lemma DollarLocal(a: string, u: string)
    requires TagLength(a) > 0 && TagLength(a + u) == TagLength(a)
    requires NextLexeme(a).closed
    ensures NextLexeme(a + u) == NextLexeme(a)
  {
    hide TagLength, QuoteTail, QuoteCloses;
    var s, n := a + u, TagLength(a);
    assert s[..n] == a[..n];
    assert s[n..] == a[n..] + u;
    assert s[0] == a[0] == '$' by { FirstOfTag(a); }
    IndexLocal(a[n..], u, a[..n]);
    assert s[..NextLexeme(a).length] == a[..NextLexeme(a).length];
  }

  lemma FirstOfTag(a: string)
    requires TagLength(a) > 0
    ensures a[0] == '$'
  {
  }

  /** A token that closed within `a` is scanned the same way whatever follows a semicolon. */
  lemma NextLexemeLocal(a: string, u: string)
    requires a != "" && a[0] != ';' && NextLexeme(a).closed
    requires u != "" && u[0] == ';'
    ensures NextLexeme(a + u) == NextLexeme(a)
  {
    var s := a + u;
    TagLocal(a, u);
    assert s[0] == a[0];
    assert |a| > 1 ==> s[1] == a[1];
    if "--" <= a {
      IndexLocal(a, u, "\n");
    } else if "/*" <= a {
      assert s[2..] == a[2..] + u;
      IndexLocal(a[2..], u, "*/");
    } else if a[0] == '\'' || a[0] == '"' {
      assert s[1..] == a[1..] + u;
      QuoteLocal(a[1..], u, a[0]);
      assert s[..NextLexeme(a).length] == a[..NextLexeme(a).length];
    } else if TagLength(a) > 0 {
      DollarLocal(a, u);
    } else {
      assert s[..1] == a[..1];
    }
  }

  /** Concatenating two scripts with a semicolon concatenates their statements, as long as the
      first does not end inside a quote or a comment. */
  lemma {:induction false} SplitConcat(current: string, a: string, b: string)
    requires Closed(a)
    ensures SplitFrom(current, a + ";" + b) == SplitFrom(current, a) + Split(b)
    decreases |a|
  {
    hide Flush, NextLexeme;
    var u := ";" + b;
    assert a + ";" + b == a + u;
    if a == "" {
      assert a + u == u && u[1..] == b;
    } else if a[0] == ';' {
      assert (a + u)[1..] == a[1..] + u == a[1..] + ";" + b;
      SplitConcat("", a[1..], b);
      assert Flush(current) + (SplitFrom("", a[1..]) + Split(b)) == Flush(current) + SplitFrom("", a[1..]) + Split(b);
    } else {
      NextLexemeLocal(a, u);
      var l := NextLexeme(a);
      assert (a + u)[l.length..] == a[l.length..] + u == a[l.length..] + ";" + b;
      SplitConcat(current + l.text, a[l.length..], b);
    }
  }

  // ----- Every statement is clean -----

  /** The text of the first statement, and the input after its semicolon if there is one. */
  datatype Scan = Scan(body: string, rest: Option<string>)

  function ScanStatement(s: string): (r: Scan)
    ensures r.rest.Some? ==> |r.rest.value| < |s|
    decreases |s|
  {
    if s == "" then Scan("", None)
    else if s[0] == ';' then Scan("", Some(s[1..]))
    else
      var l := NextLexeme(s);
      var tail := ScanStatement(s[l.length..]);
      Scan(l.text + tail.body, tail.rest)
  }

  lemma {:induction false} SplitFromScan(current: string, s: string)
    ensures var scan := ScanStatement(s);
            SplitFrom(current, s) == Flush(current + scan.body) + if scan.rest.Some? then Split(scan.rest.value) else []
    decreases |s|
  {
    hide Flush, NextLexeme;
    if s == "" || s[0] == ';' {
      assert current + "" == current;
    } else {
      var l := NextLexeme(s);
      SplitFromScan(current + l.text, s[l.length..]);
      assert current + l.text + ScanStatement(s[l.length..]).body == current + ScanStatement(s).body;
    }
  }

  /** Characters a comment can leave behind, which no token can start with or contain as a tag. */
  predicate Barrier(c: char) {
    c == ' ' || c == '\n'
  }

  /** The collected body starts like the input does, or with what a comment leaves behind. */
  lemma {:induction false} BodyFirst(s: string)
    ensures var body := ScanStatement(s).body;
            body == "" || Barrier(body[0]) || (s != "" && s[0] != ';' && body[0] == s[0])
    decreases |s|
  {
    if s != "" && s[0] != ';' {
      if "--" <= s {
        match IndexOf(s, "\n") {
          case None =>
          case Some(end) =>
            IndexOfNewline(s);
            assert NextLexeme(s[end..]).text == "\n";
        }
      }
    }
  }

  lemma {:induction false} IndexOfNewline(s: string)
    requires IndexOf(s, "\n").Some?
    ensures s[IndexOf(s, "\n").value] == '\n'
  {
    if !("\n" <= s) {
      IndexOfNewline(s[1..]);
    }
  }

  /** A dollar sign completing a tag in the body completes one in the input. */
  lemma {:induction false} BodyTag(s: string)
    ensures var body := ScanStatement(s).body;
            var run := TagRun(body);
            run < |body| && body[run] == '$' ==> TagRun(s) == run && run < |s| && s[run] == '$'
    decreases |s|
  {
    var body := ScanStatement(s).body;
    BodyFirst(s);
    if body != "" && IsTagPart(body[0]) {
      assert NextLexeme(s) == Lexeme(1, s[..1], true);
      BodyTag(s[1..]);
      assert body == s[..1] + ScanStatement(s[1..]).body;
      assert body[1..] == ScanStatement(s[1..]).body;
    }
  }

  lemma {:induction false} QuotePrefix(s: string, quote: char)
    ensures !QuoteCloses(s, quote) ==> QuoteTail(s, quote) == |s|
    ensures QuoteCloses(s, quote) ==>
      var n := QuoteTail(s, quote);
      QuoteCloses(s[..n], quote) && QuoteTail(s[..n], quote) == n && (n < |s| ==> s[n] != quote)
  {
    if s != "" {
      var n := QuoteTail(s, quote);
      if s[0] != quote {
        QuotePrefix(s[1..], quote);
        assert s[..n][1..] == s[1..][..n - 1];
      } else if |s| > 1 && s[1] == quote {
        QuotePrefix(s[2..], quote);
        assert s[..n][2..] == s[2..][..n - 2];
      }
    }
  }

  lemma {:induction false} IndexPrefix(s: string, pattern: string)
    requires IndexOf(s, pattern).Some?
    ensures IndexOf(s[..IndexOf(s, pattern).value + |pattern|], pattern) == IndexOf(s, pattern)
  {
    var n := IndexOf(s, pattern).value + |pattern|;
    if !(pattern <= s) {
      IndexPrefix(s[1..], pattern);
      assert s[..n][1..] == s[1..][..n - 1];
      assert !(pattern <= s[..n]);
    }
  }

  lemma {:induction false} TagRunStops(s: string, t: string)
    requires TagRun(s) < |s| && s[..TagRun(s) + 1] <= t
    ensures TagRun(t) == TagRun(s)
  {
    assert t[0] == s[0];
    if IsTagPart(s[0]) {
      assert s[1..][..TagRun(s)] == s[..TagRun(s) + 1][1..] <= t[1..];
      TagRunStops(s[1..], t[1..]);
    }
  }

  /** A tag is recognised from its own characters. */
  lemma TagStable(s: string, t: string)
    requires TagLength(s) > 0 && s[..TagLength(s)] <= t
    ensures TagLength(t) == TagLength(s)
  {
    var tag := s[..TagLength(s)];
    assert t[0] == tag[0] && t[1] == tag[1];
    if s[1] != '$' {
      assert s[1..][..TagRun(s[1..]) + 1] == tag[1..] <= t[1..];
      TagRunStops(s[1..], t[1..]);
      assert t[1 + TagRun(s[1..])] == tag[1 + TagRun(s[1..])];
    }
  }

  /** The first lexeme of a quoted token is the same when other text follows the token. */
  lemma QuotedStable(s: string, tail: string)
    requires s != "" && (s[0] == '\'' || s[0] == '"')
    requires !NextLexeme(s).closed ==> tail == ""
    requires tail != "" ==> Barrier(tail[0]) || (NextLexeme(s).length < |s| && tail[0] == s[NextLexeme(s).length])
    ensures NextLexeme(NextLexeme(s).text + tail) == NextLexeme(s)
  {
    var l := NextLexeme(s);
    QuotePrefix(s[1..], s[0]);
    if l.closed {
      var token := s[1..][..l.length - 1];
      assert l.text + tail == s[..1] + (token + tail);
      QuoteLocal(token, tail, s[0]);
      assert (l.text + tail)[1..] == token + tail;
      assert (l.text + tail)[..l.length] == l.text;
    } else {
      assert l.text + tail == s;
    }
  }

  lemma DollarStable(s: string, tail: string)
    requires s != "" && TagLength(s) > 0 && s[0] == '$'
    requires !NextLexeme(s).closed ==> tail == ""
    ensures NextLexeme(NextLexeme(s).text + tail) == NextLexeme(s)
  {
    hide TagLength, QuoteTail, QuoteCloses, IndexOf;
    var l, n := NextLexeme(s), TagLength(s);
    var tag := s[..n];
    if l.closed {
      var t := l.text + tail;
      assert tag <= t && t[0] == tag[0];
      assert TagLength(t) == n by { TagStable(s, t); }
      IndexPrefix(s[n..], tag);
      var token := s[n..][..l.length - n];
      IndexLocal(token, tail, tag);
      assert t[n..] == token + tail && t[..n] == tag;
      assert IndexOf(t[n..], tag) == IndexOf(s[n..], tag);
      assert t[..l.length] == l.text;
      assert t[0] == '$';
    } else {
      assert l.text + tail == s;
    }
  }

  /** A character copied on its own is copied on its own again. */
  lemma PlainStable(s: string)
    requires s != "" && s[0] != ';' && NextLexeme(s) == Lexeme(1, s[..1], true)
    requires !("--" <= s)
    ensures NextLexeme(s[..1] + ScanStatement(s[1..]).body) == Lexeme(1, s[..1], true)
  {
    var tail := ScanStatement(s[1..]).body;
    var t := s[..1] + tail;
    BodyFirst(s[1..]);
    BodyTag(s[1..]);
    assert t[1..] == tail;
    assert TagLength(t) == 0;
    assert t[..1] == s[..1];
  }

  /** The statements between semicolons are clean, and closed unless the input ran out. */
  lemma {:induction false} BodyClean(s: string)
    ensures Clean(ScanStatement(s).body)
    ensures ScanStatement(s).rest.Some? ==> Closed(ScanStatement(s).body)
    decreases |s|
  {
    if s != "" && s[0] != ';' {
      var l := NextLexeme(s);
      var tail := ScanStatement(s[l.length..]).body;
      var body := ScanStatement(s).body;
      BodyClean(s[l.length..]);
      if "--" <= s {
        assert body == tail;
      } else if "/*" <= s {
        assert body[1..] == tail && body[..1] == " ";
        assert NextLexeme(body) == Lexeme(1, " ", true);
      } else {
        CopiedLexeme(s);
        assert body == l.text + tail && body[l.length..] == tail && body[..l.length] == l.text;
        assert body[0] != ';';
      }
    }
  }

  lemma CopiedLexeme(s: string)
    requires s != "" && s[0] != ';' && !("--" <= s) && !("/*" <= s)
    ensures var l := NextLexeme(s);
            l.text == s[..l.length] && NextLexeme(l.text + ScanStatement(s[l.length..]).body) == l
    ensures !NextLexeme(s).closed ==> ScanStatement(s[NextLexeme(s).length..]).body == "" && NextLexeme(s).length == |s|
  {
    var l := NextLexeme(s);
    var tail := ScanStatement(s[l.length..]).body;
    BodyFirst(s[l.length..]);
    QuotePrefix(s[1..], s[0]);
    if s[0] == '\'' || s[0] == '"' {
      QuotedStable(s, tail);
    } else if TagLength(s) > 0 {
      DollarStable(s, tail);
    } else {
      PlainStable(s);
    }
  }

  // ----- Trimming keeps a statement clean -----

  lemma SpaceIsPlain(t: string)
    requires t != "" && IsSpace(t[0])
    ensures NextLexeme(t) == Lexeme(1, t[..1], true)
  {
  }

  lemma {:induction false} TrimLeftClean(t: string)
    requires Clean(t)
    ensures Clean(TrimLeft(t)) && (Closed(t) ==> Closed(TrimLeft(t)))
  {
    if t != "" && IsSpace(t[0]) {
      SpaceIsPlain(t);
      TrimLeftClean(t[1..]);
    }
  }

  /** Dropping a trailing space never splits a token: an open one just ends earlier. */
  lemma {:induction false} DropSpaceClean(t: string)
    requires t != "" && Clean(t) && IsSpace(t[|t| - 1])
    ensures Clean(t[..|t| - 1]) && (Closed(t) ==> Closed(t[..|t| - 1]))
    decreases |t|
  {
    hide *;
    var p, l := t[..|t| - 1], NextLexeme(t);
    CleanStep(t);
    CleanStep(p);
    CleanStep("");
    if p != "" {
      ShorterLexeme(t);
      if l.length == |t| {
        assert p[NextLexeme(p).length..] == "" && p[..|p|] == p;
      } else {
        DropSpaceClean(t[l.length..]);
        assert t[l.length..][..|t| - l.length - 1] == p[l.length..];
        assert p[..l.length] == t[..l.length];
      }
    }
  }

  lemma CleanStep(t: string)
    ensures t == "" ==> Clean(t) && Closed(t)
    ensures t != "" ==>
              (Clean(t) <==> t[0] != ';' && NextLexeme(t).text == t[..NextLexeme(t).length] && Clean(t[NextLexeme(t).length..]))
    ensures t != "" && t[0] != ';' ==> (Closed(t) <==> NextLexeme(t).closed && Closed(t[NextLexeme(t).length..]))
  {
    hide NextLexeme;
  }

  lemma {:induction false} QuoteDropSpace(s: string, quote: char)
    requires s != "" && quote != s[|s| - 1]
    ensures QuoteCloses(s, quote) ==> QuoteTail(s, quote) < |s|
    ensures QuoteTail(s[..|s| - 1], quote) == if QuoteTail(s, quote) == |s| then |s| - 1 else QuoteTail(s, quote)
    ensures QuoteCloses(s[..|s| - 1], quote) == QuoteCloses(s, quote)
    decreases |s|
  {
    var p := s[..|s| - 1];
    if p != "" {
      if s[0] != quote {
        assert s[1..][..|s| - 2] == p[1..];
        QuoteDropSpace(s[1..], quote);
      } else if s[1] == quote {
        assert s[2..][..|s| - 3] == p[2..];
        QuoteDropSpace(s[2..], quote);
      }
    } else {
      assert |s| == 1 && s[0] != quote;
      assert QuoteCloses(s, quote) == QuoteCloses(s[1..], quote);
    }
  }

  lemma {:induction false} IndexDropSpace(s: string, pattern: string)
    requires s != "" && pattern != "" && s[|s| - 1] != pattern[|pattern| - 1]
    ensures IndexOf(s[..|s| - 1], pattern) == IndexOf(s, pattern)
  {
    var p := s[..|s| - 1];
    if pattern <= s {
      assert pattern[|pattern| - 1] == s[|pattern| - 1];
      assert pattern <= p;
    } else {
      assert !(pattern <= p);
      if p != "" {
        assert s[1..][..|s| - 2] == p[1..];
        IndexDropSpace(s[1..], pattern);
      } else {
        assert s[1..] == "";
      }
    }
  }

  lemma {:induction false} TagRunDropSpace(s: string)
    requires s != "" && IsSpace(s[|s| - 1])
    ensures TagRun(s[..|s| - 1]) == TagRun(s)
  {
    var p := s[..|s| - 1];
    if p != "" && IsTagPart(s[0]) {
      assert s[1..][..|s| - 2] == p[1..];
      TagRunDropSpace(s[1..]);
    }
  }

  lemma {:induction false} TagEnds(s: string)
    requires TagLength(s) > 0
    ensures s[0] == '$' && s[TagLength(s) - 1] == '$' && TagLength(s) >= 2
  {
  }

  lemma ShorterTag(t: string)
    requires |t| > 1 && IsSpace(t[|t| - 1])
    ensures TagLength(t[..|t| - 1]) == TagLength(t)
  {
    var p := t[..|t| - 1];
    assert p[1..] == t[1..][..|t| - 2];
    TagRunDropSpace(t[1..]);
  }

  /** The first lexeme of a clean text after its last space is dropped. */
  lemma ShorterLexeme(t: string)
    requires |t| > 1 && Clean(t) && IsSpace(t[|t| - 1])
    ensures var p, l := t[..|t| - 1], NextLexeme(t);
            if l.length == |t| then NextLexeme(p) == Lexeme(|p|, p, false) && !l.closed
            else NextLexeme(p) == l
    ensures t[0] != ';'
  {
    hide TagLength, TagRun, IndexOf, Clean;
    var p, l := t[..|t| - 1], NextLexeme(t);
    CleanStart(t);
    ShorterTag(t);
    assert p[0] == t[0];
    if t[0] == '\'' || t[0] == '"' {
      assert p[1..] == t[1..][..|t| - 2];
      QuoteDropSpace(t[1..], t[0]);
      if l.length < |t| {
        assert p[..l.length] == t[..l.length];
      } else {
        assert p[..|p|] == p;
      }
    } else if TagLength(t) > 0 {
      ShorterDollar(t);
    } else {
      assert p[..1] == t[..1];
    }
  }

  lemma CleanStart(t: string)
    requires t != "" && Clean(t)
    ensures t[0] != ';' && !("--" <= t) && !("/*" <= t)
  {
  }

  lemma ShorterDollar(t: string)
    requires |t| > 1 && IsSpace(t[|t| - 1])
    requires TagLength(t) > 0 && TagLength(t[..|t| - 1]) == TagLength(t)
    ensures var p, l := t[..|t| - 1], NextLexeme(t);
            if l.length == |t| then NextLexeme(p) == Lexeme(|p|, p, false) && !l.closed
            else NextLexeme(p) == l
  {
    hide TagLength, QuoteTail, QuoteCloses, IndexOf;
    var p, l, n := t[..|t| - 1], NextLexeme(t), TagLength(t);
    TagEnds(t);
    TagEnds(p);
    var tag := t[..n];
    assert n < |t|;
    assert p[..n] == tag;
    assert t[n..][..|t| - n - 1] == p[n..];
    IndexDropSpace(t[n..], tag);
    assert p[0] == '$';
    if l.closed {
      assert p[..l.length] == t[..l.length];
    }
  }

  lemma {:induction false} TrimRightClean(t: string)
    requires Clean(t)
    ensures Clean(TrimRight(t)) && (Closed(t) ==> Closed(TrimRight(t)))
  {
    if t != "" && IsSpace(t[|t| - 1]) {
      DropSpaceClean(t);
      TrimRightClean(t[..|t| - 1]);
    }
  }

  // ----- Main results -----

  /** What a split statement is: trimmed, non-empty, and clean. */
  predicate IsStatement(t: string) {
    t != "" && Trimmed(t) && Clean(t)
  }

  /** Every result is a statement, and all but the last end outside quotes. */
  lemma {:induction false} SplitStatementsAreClean(s: string)
    ensures forall i :: 0 <= i < |Split(s)| ==> IsStatement(Split(s)[i])
    ensures forall i :: 0 <= i < |Split(s)| - 1 ==> Closed(Split(s)[i])
    decreases |s|
  {
    hide NextLexeme, Flush;
    var scan := ScanStatement(s);
    SplitFromScan("", s);
    assert "" + scan.body == scan.body;
    FlushedIsStatement(s);
    if scan.rest.Some? {
      SplitStatementsAreClean(scan.rest.value);
    }
  }

  lemma FlushedIsStatement(s: string)
    ensures var scan := ScanStatement(s);
            forall t :: t in Flush(scan.body) ==> IsStatement(t) && (scan.rest.Some? ==> Closed(t))
    ensures |Flush(ScanStatement(s).body)| <= 1
  {
    hide NextLexeme, ScanStatement, TrimLeft, TrimRight;
    var body := ScanStatement(s).body;
    BodyClean(s);
    TrimLeftClean(body);
    TrimRightClean(TrimLeft(body));
    TrimSpaceTrims(body);
  }

  /** A statement splits into itself. */
  lemma StatementIsFixpoint(t: string)
    requires IsStatement(t)
    ensures Split(t) == [t]
  {
    CleanIsOneStatement("", t);
    assert "" + t == t;
    TrimmedIsFixed(t);
  }

  /** Splitting any statement of a script again returns that statement alone. */
  lemma SplitIsFixpoint(s: string, t: string)
    requires t in Split(s)
    ensures Split(t) == [t]
  {
    SplitStatementsAreClean(s);
    StatementIsFixpoint(t);
  }

  lemma {:induction false} JoinSplits(statements: seq<string>)
    requires forall i :: 0 <= i < |statements| ==> IsStatement(statements[i])
    requires forall i :: 0 <= i < |statements| - 1 ==> Closed(statements[i])
    ensures Split(Join(statements, ";")) == statements
  {
    if |statements| == 1 {
      StatementIsFixpoint(statements[0]);
    } else if |statements| > 1 {
      StatementIsFixpoint(statements[0]);
      SplitConcat("", statements[0], Join(statements[1..], ";"));
      JoinSplits(statements[1..]);
      assert statements == [statements[0]] + statements[1..];
    }
  }

  /** Joining the statements of any script with semicolons and splitting again changes nothing. */
  lemma SplitJoinRoundTrip(s: string)
    ensures Split(Join(Split(s), ";")) == Split(s)
  {
    SplitStatementsAreClean(s);
    JoinSplits(Split(s));
  }

  // ----- What the tokens mean -----

  /** A line comment is as if it were not there; its newline stays. */
  lemma LineCommentIsDropped(current: string, comment: string, rest: string)
    requires '\n' !in comment
    ensures SplitFrom(current, "--" + comment + "\n" + rest) == SplitFrom(current, "\n" + rest)
  {
    var s := "--" + comment + "\n" + rest;
    IndexOfSeparator("--" + comment, '\n', rest);
    assert s == ("--" + comment) + "\n" + rest;
    assert "--" <= s;
    assert NextLexeme(s) == Lexeme(2 + |comment|, "", true);
    assert s[2 + |comment|..] == "\n" + rest && current + "" == current;
    hide NextLexeme;
  }

  /** A block comment reads as a blank. */
  lemma BlockCommentIsBlank(current: string, comment: string, rest: string)
    requires IndexOf(comment + "*/", "*/") == Some(|comment|)
    ensures SplitFrom(current, "/*" + comment + "*/" + rest) == SplitFrom(current + " ", rest)
  {
    var s := "/*" + comment + "*/" + rest;
    IndexLocal(comment + "*/", rest, "*/");
    assert s[2..] == (comment + "*/") + rest;
    assert "/*" <= s && s[0] == '/';
    assert NextLexeme(s) == Lexeme(|comment| + 4, " ", true);
    assert s[|comment| + 4..] == rest;
    hide NextLexeme;
  }

  lemma {:induction false} QuoteTailOf(inner: string, quote: char, rest: string)
    requires quote !in inner && (rest != "" ==> rest[0] != quote)
    ensures QuoteTail(inner + [quote] + rest, quote) == |inner| + 1
  {
    var s := inner + [quote] + rest;
    if inner != "" {
      assert s[1..] == inner[1..] + [quote] + rest && s[0] == inner[0] && inner[0] in inner;
      QuoteTailOf(inner[1..], quote, rest);
    }
  }

  /** Quoted text is kept as it is, whatever semicolons and comment signs it contains. */
  lemma QuotedTextIsKept(current: string, quote: char, inner: string, rest: string)
    requires quote in {'\'', '"'} && quote !in inner && (rest != "" ==> rest[0] != quote)
    ensures SplitFrom(current, [quote] + inner + [quote] + rest) == SplitFrom(current + [quote] + inner + [quote], rest)
  {
    var s, token := [quote] + inner + [quote] + rest, [quote] + inner + [quote];
    QuotedLexeme(quote, inner, rest);
    hide NextLexeme;
    assert s[|token|..] == rest && s[0] != ';';
    assert current + token == current + [quote] + inner + [quote];
  }

  lemma QuotedLexeme(quote: char, inner: string, rest: string)
    requires quote in {'\'', '"'} && quote !in inner && (rest != "" ==> rest[0] != quote)
    ensures var s, token := [quote] + inner + [quote] + rest, [quote] + inner + [quote];
            NextLexeme(s).length == |token| && NextLexeme(s).text == token
  {
    hide QuoteTail, QuoteCloses, TagLength, IndexOf;
    var s := [quote] + inner + [quote] + rest;
    assert s[1..] == inner + [quote] + rest && s[0] == quote;
    QuoteTailOf(inner, quote, rest);
    assert s[..|inner| + 2] == [quote] + inner + [quote];
  }

  /** A dollar-quoted body is kept up to the first repetition of its tag. */
  lemma DollarBodyIsKept(current: string, tag: string, inner: string, rest: string)
    requires tag != "" && TagLength(tag + inner + tag + rest) == |tag| && IndexOf(inner + tag, tag) == Some(|inner|)
    ensures SplitFrom(current, tag + inner + tag + rest) == SplitFrom(current + tag + inner + tag, rest)
  {
    var s, token := tag + inner + tag + rest, tag + inner + tag;
    DollarLexeme(tag, inner, rest);
    hide NextLexeme;
    assert s[|token|..] == rest && s[0] == '$' by { FirstOfTag(s); }
    assert current + token == current + tag + inner + tag;
  }

  lemma DollarLexeme(tag: string, inner: string, rest: string)
    requires tag != "" && TagLength(tag + inner + tag + rest) == |tag| && IndexOf(inner + tag, tag) == Some(|inner|)
    ensures var s, token := tag + inner + tag + rest, tag + inner + tag;
            NextLexeme(s).length == |token| && NextLexeme(s).text == token
  {
    hide TagLength, IndexOf, QuoteTail, QuoteCloses;
    var s := tag + inner + tag + rest;
    assert s[..|tag|] == tag && s[|tag|..] == (inner + tag) + rest;
    IndexLocal(inner + tag, rest, tag);
    assert s[0] == '$' by { FirstOfTag(s); }
    assert s[..|tag| + |inner| + |tag|] == tag + inner + tag;
  }
}
