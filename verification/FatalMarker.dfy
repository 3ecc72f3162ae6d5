/** The fatal-cursor marker in a subscription's last_error: how it is written, read back, and guarded
    in SQL by a LIKE whose `_` is a wildcard. */
module FatalMarker {
  import opened Text
  import Like

  const PREFIX := "FATAL_CURSOR "
  const MAX_LENGTH := 4096

  // ----- Texts and bytes -----

  /** The number of bytes of a character in UTF-8. */
  function Width(c: char): (n: nat)
    ensures 1 <= n <= 4
  {
    if c < '\U{0080}' then 1 else if c < '\U{0800}' then 2 else if c < '\U{10000}' then 3 else 4
  }

  function Bytes(s: string): nat {
    if s == "" then 0 else Width(s[0]) + Bytes(s[1..])
  }

  /** A string of bytes: a text, and after it `stray` bytes of a character that was cut. */
  datatype Cut = Cut(text: string, stray: nat)

  /** The first `n` bytes of a text. */
  function FirstBytes(s: string, n: nat): Cut {
    if s == "" then Cut("", 0)
    else if Width(s[0]) <= n then
      var rest := FirstBytes(s[1..], n - Width(s[0]));
      Cut([s[0]] + rest.text, rest.stray)
    else Cut("", n)
  }

  function Clip(s: string): Cut {
    if Bytes(s) > MAX_LENGTH then FirstBytes(s, MAX_LENGTH) else Cut(s, 0)
  }

  /** strings.ToValidUTF8 with the replacement character. Texts are what it returns. */
  function ToValid(s: Cut): string {
    if s.stray > 0 then s.text + "\U{FFFD}" else s.text
  }

  /** strings.TrimSpace; bytes of a cut character are no space. */
  function Trim(s: Cut): Cut {
    if s.stray > 0 then Cut(TrimLeft(s.text), s.stray) else Cut(TrimSpace(s.text), 0)
  }

  lemma {:induction false} BytesConcat(a: string, b: string)
    ensures Bytes(a + b) == Bytes(a) + Bytes(b)
  {
    if a == "" {
      assert a + b == b;
    } else {
      assert (a + b)[1..] == a[1..] + b;
      BytesConcat(a[1..], b);
    }
  }

  lemma {:induction false} BytesBound(s: string)
    ensures |s| <= Bytes(s) <= 4 * |s|
  {
    if s != "" {
      BytesBound(s[1..]);
    }
  }

  lemma PrefixBytes(a: string, b: string)
    requires a <= b
    ensures Bytes(a) <= Bytes(b)
  {
    assert b == a + b[|a|..];
    BytesConcat(a, b[|a|..]);
  }

  /** The first bytes are a prefix of the text, and stray bytes begin the character that follows it. */
  lemma {:induction false} FirstBytesAre(s: string, n: nat)
    ensures var cut := FirstBytes(s, n);
            && cut.text <= s && Bytes(cut.text) + cut.stray <= n
            && (Bytes(s) > n ==> Bytes(cut.text) + cut.stray == n)
            && (Bytes(s) <= n ==> cut == Cut(s, 0))
            && (cut.stray > 0 ==> |cut.text| < |s| && cut.stray < Width(s[|cut.text|]))
  {
    if s != "" && Width(s[0]) <= n {
      FirstBytesAre(s[1..], n - Width(s[0]));
      var cut := FirstBytes(s, n);
      assert cut.text[1..] == FirstBytes(s[1..], n - Width(s[0])).text;
      assert s == [s[0]] + s[1..];
    }
  }

  lemma {:induction false} FirstBytesKeep(s: string, n: nat, k: nat)
    requires k <= |s| && Bytes(s[..k]) <= n
    ensures s[..k] <= FirstBytes(s, n).text
  {
    if k > 0 {
      assert s[..k][1..] == s[1..][..k - 1] && s[..k][0] == s[0];
      FirstBytesKeep(s[1..], n - Width(s[0]), k - 1);
      assert s[..k] == [s[0]] + s[1..][..k - 1];
    }
  }

  lemma ClipKeeps(s: string, k: nat)
    requires k <= |s| && Bytes(s[..k]) <= MAX_LENGTH
    ensures s[..k] <= Clip(s).text
  {
    FirstBytesKeep(s, MAX_LENGTH, k);
  }

  lemma ClipIs(s: string)
    ensures var cut := Clip(s);
            && cut.text <= s && Bytes(cut.text) + cut.stray <= MAX_LENGTH
            && (cut.stray > 0 ==> |cut.text| < |s| && cut.stray < Width(s[|cut.text|]))
  {
    FirstBytesAre(s, MAX_LENGTH);
  }

  lemma {:induction false} TrimBytes(s: string)
    ensures Bytes(TrimLeft(s)) <= Bytes(s) && Bytes(TrimSpace(s)) <= Bytes(s)
  {
    if s != "" && IsSpace(s[0]) {
      TrimBytes(s[1..]);
    } else {
      assert TrimLeft(s) == s;
      TrimRightKeepsFirst(s);
      PrefixBytes(TrimRight(s), s);
    }
  }

  // ----- The marker -----

  function NormalizeLastError(text: string): Cut {
    if TrimSpace(text) == "" then Cut("unknown error", 0) else Clip(TrimSpace(text))
  }

  function NormalizeErrorCode(code: string): string {
    if TrimSpace(code) == "" then "Unknown" else TrimSpace(code)
  }

  function TrimPrefix(s: string, prefix: string): string {
    if prefix <= s then s[|prefix|..] else s
  }

  /** The message that goes into a marker: without a prefix or a code of its own. */
  function BareMessage(code: string, text: string): string {
    var bare := TrimSpace(TrimPrefix(TrimSpace(text), PREFIX));
    if code + ":" <= bare then TrimSpace(TrimPrefix(bare, code + ":")) else bare
  }

  function FormatFatal(errorCode: string, text: string): Cut {
    var code := NormalizeErrorCode(errorCode);
    NormalizeLastError(PREFIX + code + ": " + ToValid(NormalizeLastError(BareMessage(code, text))))
  }

  predicate IsFatal(lastError: Option<Cut>) {
    lastError.Some? && PREFIX <= Trim(lastError.value).text
  }

  /** The code at the head of what follows the prefix. */
  function CodeIn(rest: Cut): Cut {
    var code := match IndexOf(rest.text, ":") case None => Trim(rest) case Some(i) => Cut(TrimSpace(rest.text[..i]), 0);
    if code == Cut("", 0) then Cut("FatalCursor", 0) else code
  }

  function FatalCode(lastError: Option<Cut>): Cut {
    if !IsFatal(lastError) then Cut("", 0)
    else
      var trimmed := Trim(lastError.value);
      CodeIn(Cut(TrimPrefix(trimmed.text, PREFIX), trimmed.stray))
  }

  /** `last_error LIKE 'FATAL_CURSOR %'`: the guard that keeps a row from being updated. What follows the
      prefix does not matter. */
  predicate Stuck(lastError: Option<Cut>, same: Like.Matching) {
    lastError.Some? && Like.Like(lastError.value.text, PREFIX + "%", same)
  }

  /** LIKE takes every character for itself, and perhaps for others. */
  ghost predicate TakesItself(same: Like.Matching) {
    forall a, b :: a == b ==> same(a, b)
  }

  lemma {:induction false} LikeStep(text: string, pattern: string, rest: string, same: Like.Matching)
    requires '%' !in pattern && '\\' !in pattern
    ensures Like.Like(text, pattern + rest, same)
            <==> |text| >= |pattern|
                 && (forall i :: 0 <= i < |pattern| ==> pattern[i] == '_' || same(text[i], pattern[i]))
                 && Like.Like(text[|pattern|..], rest, same)
  {
    if pattern == "" {
      assert pattern + rest == rest && text[0..] == text;
    } else if text != "" {
      assert pattern[0] in pattern;
      assert (pattern + rest)[0] == pattern[0] && (pattern + rest)[1..] == pattern[1..] + rest;
      LikeStep(text[1..], pattern[1..], rest, same);
      assert |text| >= |pattern| ==> text[1..][|pattern| - 1..] == text[|pattern|..];
      assert forall i :: 1 <= i < |pattern| && i < |text| ==> text[i] == text[1..][i - 1] && pattern[i] == pattern[1..][i - 1];
      assert (|text| >= |pattern| && forall i :: 0 <= i < |pattern| ==> pattern[i] == '_' || same(text[i], pattern[i]))
             <==> ((pattern[0] == '_' || same(text[0], pattern[0]))
                   && |text[1..]| >= |pattern[1..]|
                   && forall i :: 0 <= i < |pattern[1..]| ==> pattern[1..][i] == '_' || same(text[1..][i], pattern[1..][i])) by {
        Shift(text, pattern, same);
      }
    } else {
      assert pattern[0] in pattern && (pattern + rest)[0] == pattern[0];
    }
  }

  lemma Shift(text: string, pattern: string, same: Like.Matching)
    requires text != "" && pattern != ""
    ensures (|text| >= |pattern| && forall i :: 0 <= i < |pattern| ==> pattern[i] == '_' || same(text[i], pattern[i]))
            <==> ((pattern[0] == '_' || same(text[0], pattern[0]))
                  && |text[1..]| >= |pattern[1..]|
                  && forall i :: 0 <= i < |pattern[1..]| ==> pattern[1..][i] == '_' || same(text[1..][i], pattern[1..][i]))
  {
    var t, p := text[1..], pattern[1..];
    if |t| >= |p| && (pattern[0] == '_' || same(text[0], pattern[0]))
       && forall i :: 0 <= i < |p| ==> p[i] == '_' || same(t[i], p[i]) {
      forall i | 0 <= i < |pattern| ensures pattern[i] == '_' || same(text[i], pattern[i]) {
        if i > 0 {
          assert p[i - 1] == pattern[i] && t[i - 1] == text[i];
        }
      }
    }
  }

  /** The guard holds of more than markers: the sixth character may be anything. */
  lemma StuckIs(error: Cut, same: Like.Matching)
    ensures Stuck(Some(error), same)
            <==> |error.text| >= |PREFIX| && forall i :: 0 <= i < |PREFIX| && i != 5 ==> same(error.text[i], PREFIX[i])
  {
    var text := error.text;
    LikeStep(text, PREFIX, "%", same);
    if |text| >= |PREFIX| {
      Like.LikeAnything(text[|PREFIX|..], same);
    }
    assert PREFIX[5] == '_';
    assert forall i :: 0 <= i < |PREFIX| ==> (PREFIX[i] == '_' <==> i == 5);
  }

  /** Whatever is read as fatal is guarded. A guarded text that is not a marker exists: it freezes the row
      although the subscription does not count as fatal. */
  lemma FatalIsStuck(error: Cut, same: Like.Matching)
    requires TakesItself(same) && (error.text != "" ==> !IsSpace(error.text[0])) && IsFatal(Some(error))
    ensures Stuck(Some(error), same)
  {
    TrimRightKeepsFirst(error.text);
    assert TrimLeft(error.text) == error.text;
    assert PREFIX <= error.text;
    StuckIs(error, same);
  }

  lemma StuckNotFatal(same: Like.Matching) returns (text: string)
    requires TakesItself(same)
    ensures NormalizeLastError(text) == Cut(text, 0) && Stuck(Some(Cut(text, 0)), same) && !IsFatal(Some(Cut(text, 0)))
  {
    hide Bytes, FirstBytes, Stuck;
    text := "FATAL CURSOR x";
    assert Trimmed(text);
    BytesBound(text);
    StuckIs(Cut(text, 0), same);
    assert text[5] != PREFIX[5];
    NotMarked(text);
  }

  lemma NotMarked(text: string)
    requires Trimmed(text) && !(PREFIX <= text)
    ensures !IsFatal(Some(Cut(text, 0))) && TrimSpace(text) == text
  {
    TrimmedIsFixed(text);
  }

  // ----- Writing and reading back -----

  lemma {:induction false} TrimRightKeeps(s: string, k: nat)
    requires k < |s| && !IsSpace(s[k])
    ensures |TrimRight(s)| > k && TrimRight(s) <= s
  {
    if IsSpace(s[|s| - 1]) {
      TrimRightKeeps(s[..|s| - 1], k);
    }
  }

  lemma {:induction false} TrimRightAfter(a: string, b: string)
    requires b != "" && !IsSpace(b[0])
    ensures TrimRight(a + b) == a + TrimRight(b) && TrimRight(b) != ""
  {
    var s := a + b;
    assert s[|s| - 1] == b[|b| - 1];
    if IsSpace(b[|b| - 1]) {
      assert s[..|s| - 1] == a + b[..|b| - 1];
      TrimRightAfter(a, b[..|b| - 1]);
    }
  }

  lemma NormalizedStarts(text: string)
    ensures NormalizeLastError(text).text != "" && !IsSpace(NormalizeLastError(text).text[0])
    ensures TrimSpace(text) != "" ==> NormalizeLastError(text).text[0] == TrimSpace(text)[0]
  {
    TrimSpaceTrims(text);
    if TrimSpace(text) != "" {
      var trimmed := TrimSpace(text);
      BytesBound(trimmed[..1]);
      ClipKeeps(trimmed, 1);
    }
  }

  lemma CodeStarts(code: string)
    ensures NormalizeErrorCode(code) != "" && Trimmed(NormalizeErrorCode(code))
  {
    TrimSpaceTrims(code);
  }

  /** The stored marker: the prefix, the code, and as much of a message as fits. */
  lemma FormatIs(errorCode: string, text: string) returns (message: string)
    ensures message != ""
    ensures FormatFatal(errorCode, text) == Clip(PREFIX + NormalizeErrorCode(errorCode) + ": " + message)
  {
    var code := NormalizeErrorCode(errorCode);
    var given := ToValid(NormalizeLastError(BareMessage(code, text)));
    NormalizedStarts(BareMessage(code, text));
    message := TrimRight(given);
    var before := PREFIX + code + ": ";
    assert FormatFatal(errorCode, text) == NormalizeLastError(before + given);
    hide NormalizeErrorCode, TrimPrefix, FormatFatal, BareMessage, Clip;
    TrimRightAfter(before, given);
    var full := before + given;
    assert full[0] == 'F' && !IsSpace('F');
    assert TrimLeft(full) == full;
    assert TrimSpace(full) == before + message;
  }

  /** Trimming a string that begins with no space keeps everything up to a character that is none. */
  lemma TrimKeeps(s: Cut, k: nat)
    requires k < |s.text| && !IsSpace(s.text[0]) && !IsSpace(s.text[k])
    ensures Trim(s).text <= s.text && |Trim(s).text| > k
    ensures s.stray > 0 ==> Trim(s) == s
    ensures Trim(s).stray == s.stray
  {
    assert TrimLeft(s.text) == s.text;
    TrimRightKeeps(s.text, k);
  }

  /** A stored marker always reads as fatal, whatever code and message it was made from and wherever it
      was cut off, be it inside a character; and the guard of every update recognizes it. */
  lemma MarkerIsFatal(errorCode: string, text: string, same: Like.Matching)
    requires TakesItself(same)
    ensures IsFatal(Some(FormatFatal(errorCode, text))) && Stuck(Some(FormatFatal(errorCode, text)), same)
  {
    var code := NormalizeErrorCode(errorCode);
    CodeStarts(errorCode);
    var message := FormatIs(errorCode, text);
    var full, marker := PREFIX + code + ": " + message, FormatFatal(errorCode, text);
    BytesBound(full[..|PREFIX| + 1]);
    ClipKeeps(full, |PREFIX| + 1);
    assert full[..|PREFIX| + 1] == PREFIX + [code[0]];
    hide FormatFatal, NormalizeErrorCode, Clip, Trim, Bytes;
    assert marker.text[0] == 'F' && marker.text[|PREFIX|] == code[0];
    TrimKeeps(marker, |PREFIX|);
    assert PREFIX <= Trim(marker).text;
    FatalIsStuck(marker, same);
  }

  lemma {:induction false} IndexOfFirst(s: string, c: char)
    ensures IndexOf(s, [c]).None? <==> c !in s
    ensures IndexOf(s, [c]).Some? ==> s[IndexOf(s, [c]).value] == c && c !in s[..IndexOf(s, [c]).value]
  {
    if s != "" {
      IndexOfFirst(s[1..], c);
      assert s == [s[0]] + s[1..];
      assert [c] <= s <==> s[0] == c;
      if s[0] != c && IndexOf(s[1..], [c]).Some? {
        var i := IndexOf(s[1..], [c]).value;
        assert s[..i + 1] == [s[0]] + s[1..][..i];
      }
    }
  }

  /** The code read back from a marker is the code it was made from exactly when that code has no colon
      and its bytes fit behind the prefix. */
  lemma CodeRoundTrip(errorCode: string, text: string)
    ensures FatalCode(Some(FormatFatal(errorCode, text))) == Cut(NormalizeErrorCode(errorCode), 0)
            <==> ':' !in NormalizeErrorCode(errorCode) && Bytes(PREFIX + NormalizeErrorCode(errorCode)) <= MAX_LENGTH
  {
    var code := NormalizeErrorCode(errorCode);
    CodeStarts(errorCode);
    MarkerIsFatal(errorCode, text, (a, b) => a == b);
    var message := FormatIs(errorCode, text);
    var marker := FormatFatal(errorCode, text);
    hide FormatFatal, NormalizeErrorCode;
    CodeOfMarker(code, message, marker);
  }

  /** The part of a marker behind the prefix: a prefix of code and message, of at most the bytes left, which
      is cut inside a character only where that character follows it. */
  lemma MarkerRest(code: string, message: string, marker: Cut) returns (rest: string)
    requires code != "" && Trimmed(code) && message != ""
    requires marker == Clip(PREFIX + code + ": " + message) && IsFatal(Some(marker))
    ensures Trim(marker) == Cut(PREFIX + rest, marker.stray)
    ensures rest <= code + ": " + message && Bytes(PREFIX) + Bytes(rest) <= MAX_LENGTH
    ensures marker.stray > 0 ==>
              |rest| < |code + ": " + message| && marker.stray < Width((code + ": " + message)[|rest|])
  {
    PrefixStarts();
    TrimIsPrefix(marker);
    hide *;
    var full := code + ": " + message;
    assert PREFIX + code + ": " + message == PREFIX + full;
    ClipIs(PREFIX + full);
    rest := Trim(marker).text[|PREFIX|..];
    assert Trim(marker).text == PREFIX + rest;
    assert marker.text[0] == (PREFIX + full)[0] == PREFIX[0];
    BehindPrefix(PREFIX, rest, marker.text, full);
    PrefixBytes(PREFIX + rest, marker.text);
    BytesConcat(PREFIX, rest);
    if marker.stray > 0 {
      assert marker.text == PREFIX + rest;
      assert (PREFIX + full)[|PREFIX| + |rest|] == full[|rest|];
    }
  }

  lemma BehindPrefix(prefix: string, rest: string, text: string, full: string)
    requires prefix + rest <= text <= prefix + full
    ensures rest <= full
  {
    assert forall i :: 0 <= i < |rest| ==> rest[i] == (prefix + rest)[|prefix| + i] == (prefix + full)[|prefix| + i];
  }

  /** Trimming a string that begins with no space drops characters at its end only. */
  lemma TrimIsPrefix(s: Cut)
    ensures IsFatal(Some(s)) ==> PREFIX <= Trim(s).text
    ensures s.text == "" ==> Trim(s).text == ""
    ensures s.text != "" && !IsSpace(s.text[0]) ==> Trim(s).text <= s.text && (s.stray > 0 ==> Trim(s) == s)
    ensures Trim(s).stray == s.stray
  {
    TrimRightKeepsFirst(s.text);
  }

  lemma CodeOfMarker(code: string, message: string, marker: Cut)
    requires code != "" && Trimmed(code) && message != ""
    requires marker == Clip(PREFIX + code + ": " + message) && IsFatal(Some(marker))
    ensures FatalCode(Some(marker)) == Cut(code, 0) <==> ':' !in code && Bytes(PREFIX + code) <= MAX_LENGTH
  {
    PrefixStarts();
    assert !IsSpace(code[|code| - 1]);
    hide *;
    var rest := MarkerRest(code, message, marker);
    FatalCodeIs(marker, rest);
    if ':' !in code && Bytes(PREFIX + code) <= MAX_LENGTH {
      HeadAndTail(PREFIX, code, ": ", message);
      HeadIsKept(PREFIX + code, ": " + message, marker);
      RestLength(PREFIX, code, rest);
      WholeCode(code, message, rest, marker.stray);
    } else {
      PartOfCode(code, rest, marker.stray);
    }
  }

  lemma HeadAndTail(prefix: string, code: string, separator: string, message: string)
    requires prefix != "" && code != ""
    ensures prefix + code + separator + message == (prefix + code) + (separator + message)
    ensures (prefix + code)[0] == prefix[0] && (prefix + code)[|prefix + code| - 1] == code[|code| - 1]
  {
  }

  lemma RestLength(prefix: string, code: string, rest: string)
    requires |prefix + rest| >= |prefix + code|
    ensures |rest| >= |code|
  {
  }

  lemma FatalCodeIs(marker: Cut, rest: string)
    requires IsFatal(Some(marker)) && Trim(marker) == Cut(PREFIX + rest, marker.stray)
    ensures FatalCode(Some(marker)) == CodeIn(Cut(rest, marker.stray))
  {
    assert (PREFIX + rest)[|PREFIX|..] == rest;
    hide CodeIn, Trim;
  }

  /** Cutting and trimming keep a head that fits and neither begins nor ends with a space. */
  lemma HeadIsKept(head: string, tail: string, marker: Cut)
    requires head != "" && !IsSpace(head[0]) && !IsSpace(head[|head| - 1])
    requires marker == Clip(head + tail) && Bytes(head) <= MAX_LENGTH
    ensures |Trim(marker).text| >= |head|
  {
    hide *;
    assert (head + tail)[..|head|] == head;
    ClipKeeps(head + tail, |head|);
    TrimKeeps(marker, |head| - 1);
  }

  lemma PrefixStarts()
    ensures |PREFIX| == 13 && PREFIX[0] == 'F' && !IsSpace('F')
  {
  }

  lemma WholeCode(code: string, message: string, rest: string, stray: nat)
    requires code != "" && Trimmed(code) && ':' !in code && rest <= code + ": " + message && |rest| >= |code|
    requires stray > 0 ==> |rest| < |code + ": " + message| && stray < Width((code + ": " + message)[|rest|])
    ensures CodeIn(Cut(rest, stray)) == Cut(code, 0)
  {
    CutIsCode(code, message, rest);
    IndexOfFirst(rest, ':');
    TrimmedIsFixed(code);
    assert rest[..|code|] == code;
    if |rest| == |code| {
      assert (code + ": " + message)[|code|] == ':' && Width(':') == 1;
      assert rest == code && stray == 0;
    } else {
      assert rest[|code|] == ':';
    }
  }

  lemma PartOfCode(code: string, rest: string, stray: nat)
    requires ':' in code || Bytes(PREFIX + code) > MAX_LENGTH
    requires Bytes(PREFIX) + Bytes(rest) <= MAX_LENGTH
    ensures CodeIn(Cut(rest, stray)) != Cut(code, 0)
  {
    hide Bytes, TrimSpace, TrimLeft, IndexOf;
    BytesConcat(PREFIX, code);
    IndexOfFirst(rest, ':');
    var head := match IndexOf(rest, ":") case None => rest case Some(i) => rest[..i];
    PrefixBytes(head, rest);
    TrimBytes(head);
    TrimSpaceShortens(head);
    BytesBound("FatalCursor");
    BytesBound(PREFIX);
    assert |"FatalCursor"| == 11 && ':' !in "FatalCursor";
    assert ':' !in head;
  }

  lemma CutIsCode(code: string, message: string, rest: string)
    requires ':' !in code && rest <= code + ": " + message && |rest| >= |code|
    ensures (match IndexOf(rest, ":") case None => rest case Some(i) => rest[..i]) == code
  {
    IndexOfFirst(rest, ':');
    assert rest[..|code|] == code;
    if |rest| > |code| {
      assert rest[|code|] == ':';
      assert rest == code + ":" + rest[|code| + 1..];
      IndexOfSeparator(code, ':', rest[|code| + 1..]);
    } else {
      assert rest == code;
    }
  }

  lemma {:induction false} TrimLeftShortens(s: string)
    ensures |TrimLeft(s)| <= |s| && forall c :: c in TrimLeft(s) ==> c in s
  {
    if s != "" && IsSpace(s[0]) {
      TrimLeftShortens(s[1..]);
    }
  }

  lemma TrimSpaceShortens(s: string)
    ensures |TrimSpace(s)| <= |s| && forall c :: c in TrimSpace(s) ==> c in s
  {
    TrimLeftShortens(s);
    TrimRightKeepsFirst(TrimLeft(s));
  }
}
