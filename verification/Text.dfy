/** Strings as the Go standard library treats them: trimming, searching, joining and the
    lexicographic order that `sort.Strings` and `ORDER BY` use. */
module Text {

  datatype Option<+T> = None | Some(value: T)

  datatype Result<+T> = Ok(value: T) | Err(error: string)

  /** unicode.IsSpace. */
  predicate IsSpace(c: char) {
    || c == '\t' || c == '\n' || c == '\U{000B}' || c == '\U{000C}' || c == '\r' || c == ' '
    || c == '\U{0085}' || c == '\U{00A0}' || c == '\U{1680}'
    || '\U{2000}' <= c <= '\U{200A}'
    || c == '\U{2028}' || c == '\U{2029}' || c == '\U{202F}' || c == '\U{205F}' || c == '\U{3000}'
  }

  function TrimLeft(s: string): string {
    if s != "" && IsSpace(s[0]) then TrimLeft(s[1..]) else s
  }

  function TrimRight(s: string): string {
    if s != "" && IsSpace(s[|s| - 1]) then TrimRight(s[..|s| - 1]) else s
  }

  /** strings.TrimSpace. */
  function TrimSpace(s: string): string {
    TrimRight(TrimLeft(s))
  }

  /** A string that strings.TrimSpace leaves alone. */
  predicate Trimmed(s: string) {
    s != "" ==> !IsSpace(s[0]) && !IsSpace(s[|s| - 1])
  }

  lemma {:induction false} TrimRightKeepsFirst(s: string)
    ensures TrimRight(s) <= s
    ensures TrimRight(s) != "" ==> TrimRight(s)[0] == s[0] && !IsSpace(TrimRight(s)[|TrimRight(s)| - 1])
  {
    if s != "" && IsSpace(s[|s| - 1]) {
      TrimRightKeepsFirst(s[..|s| - 1]);
    }
  }

  lemma {:induction false} TrimLeftFirst(s: string)
    ensures TrimLeft(s) != "" ==> !IsSpace(TrimLeft(s)[0])
  {
    if s != "" && IsSpace(s[0]) {
      TrimLeftFirst(s[1..]);
    }
  }

  lemma TrimSpaceTrims(s: string)
    ensures Trimmed(TrimSpace(s))
  {
    TrimLeftFirst(s);
    TrimRightKeepsFirst(TrimLeft(s));
  }

  lemma TrimmedIsFixed(s: string)
    requires Trimmed(s)
    ensures TrimSpace(s) == s
  {
  }

  /** strings.Index: the first position at which `pattern` occurs in `s`. */
  function IndexOf(s: string, pattern: string): (r: Option<nat>)
    ensures r.Some? ==> r.value + |pattern| <= |s|
  {
    if pattern <= s then Some(0)
    else if s == "" then None
    else
      match IndexOf(s[1..], pattern)
      case None => None
      case Some(i) => Some(i + 1)
  }

  lemma {:induction false} IndexOfSeparator(before: string, separator: char, after: string)
    requires separator !in before
    ensures IndexOf(before, [separator]) == None
    ensures IndexOf(before + [separator] + after, [separator]) == Some(|before|)
  {
    var t := before + [separator] + after;
    if before == "" {
      assert t[0] == separator && [separator] <= t;
    } else {
      assert t[1..] == before[1..] + [separator] + after;
      assert t[0] == before[0] && before[0] in before;
      IndexOfSeparator(before[1..], separator, after);
    }
  }

  /** strings.Join. */
  function Join(parts: seq<string>, separator: string): string {
    if parts == [] then ""
    else if |parts| == 1 then parts[0]
    else parts[0] + separator + Join(parts[1..], separator)
  }

  /** The parts a separator was put between. */
  function Unjoin(s: string, separator: char): seq<string>
    decreases |s|
  {
    match IndexOf(s, [separator])
    case None => [s]
    case Some(i) => [s[..i]] + Unjoin(s[i + 1..], separator)
  }

  /** Joining loses nothing when no part contains the separator. */
  lemma {:induction false} UnjoinJoin(parts: seq<string>, separator: char)
    requires parts != [] && forall part :: part in parts ==> separator !in part
    ensures Unjoin(Join(parts, [separator]), separator) == parts
  {
    assert parts[0] in parts;
    if |parts| == 1 {
      IndexOfSeparator(parts[0], separator, "");
    } else {
      var joined, rest := Join(parts, [separator]), Join(parts[1..], [separator]);
      IndexOfSeparator(parts[0], separator, rest);
      UnjoinJoin(parts[1..], separator);
      assert joined[..|parts[0]|] == parts[0] && joined[|parts[0]| + 1..] == rest;
      assert parts == [parts[0]] + parts[1..];
    }
  }

  /** The order of Go's `<` on strings, of sort.Strings and of ORDER BY on text columns. */
  predicate Before(a: string, b: string) {
    b != "" && (a == "" || a[0] < b[0] || (a[0] == b[0] && Before(a[1..], b[1..])))
  }

  lemma {:induction false} BeforeTransitive(a: string, b: string, c: string)
    requires Before(a, b) && Before(b, c)
    ensures Before(a, c)
  {
    if a != "" && a[0] == b[0] == c[0] {
      BeforeTransitive(a[1..], b[1..], c[1..]);
    }
  }

  lemma {:induction false} BeforeTotal(a: string, b: string)
    ensures !(Before(a, b) && Before(b, a))
    ensures Before(a, b) || Before(b, a) || a == b
    ensures !Before(a, a)
  {
    if a != "" {
      BeforeTotal(a[1..], a[1..]);
      if b != "" {
        BeforeTotal(a[1..], b[1..]);
        assert a == [a[0]] + a[1..] && b == [b[0]] + b[1..];
      }
    }
  }

  lemma BeforeIsTransitive()
    ensures forall a, b, c :: Before(a, b) && Before(b, c) ==> Before(a, c)
  {
    forall a, b, c | Before(a, b) && Before(b, c) ensures Before(a, c) {
      BeforeTransitive(a, b, c);
    }
  }

  lemma BeforeIsTotal()
    ensures forall a, b :: Before(a, b) || Before(b, a) || a == b
    ensures forall a, b :: !(Before(a, b) && Before(b, a))
  {
    forall a, b ensures (Before(a, b) || Before(b, a) || a == b) && !(Before(a, b) && Before(b, a)) {
      BeforeTotal(a, b);
    }
  }
}
