/** SQL LIKE with `ESCAPE '\'`, and the escaping of user text for it. */
module Like {
  import opened Text

  /** When two characters count as equal: identity, or a case folding. */
  type Matching = (char, char) -> bool

  /** `text LIKE pattern ESCAPE '\'`. */
  predicate Like(text: string, pattern: string, same: Matching)
    decreases |text| + |pattern|
  {
    if pattern == "" then text == ""
    else if pattern[0] == '%' then
      Like(text, pattern[1..], same) || (text != "" && Like(text[1..], pattern, same))
    else if pattern[0] == '_' then
      text != "" && Like(text[1..], pattern[1..], same)
    else if pattern[0] == '\\' then
      |pattern| > 1 && text != "" && same(text[0], pattern[1]) && Like(text[1..], pattern[2..], same)
    else
      text != "" && same(text[0], pattern[0]) && Like(text[1..], pattern[1..], same)
  }

  predicate StartsWith(text: string, value: string, same: Matching) {
    |value| <= |text| && forall i :: 0 <= i < |value| ==> same(text[i], value[i])
  }

  predicate Contains(text: string, value: string, same: Matching) {
    exists i :: 0 <= i <= |text| && StartsWith(text[i..], value, same)
  }

  /** strings.ReplaceAll for a single character. */
  function ReplaceAll(s: string, c: char, with: string): string {
    if s == "" then "" else (if s[0] == c then with else [s[0]]) + ReplaceAll(s[1..], c, with)
  }

  /** The records repository's escaping: three passes, backslash first. */
  function EscapeLIKE(s: string): string {
    ReplaceAll(ReplaceAll(ReplaceAll(s, '\\', "\\\\"), '%', "\\%"), '_', "\\_")
  }

  /** The version repository's escaping: one pass of a replacer. */
  function EscapeLike(s: string): string {
    if s == "" then ""
    else (if s[0] == '\\' || s[0] == '%' || s[0] == '_' then ['\\', s[0]] else [s[0]]) + EscapeLike(s[1..])
  }

  lemma {:induction false} ReplaceConcat(a: string, b: string, c: char, with: string)
    ensures ReplaceAll(a + b, c, with) == ReplaceAll(a, c, with) + ReplaceAll(b, c, with)
  {
    if a == "" {
      assert a + b == b;
    } else {
      assert (a + b)[1..] == a[1..] + b;
      ReplaceConcat(a[1..], b, c, with);
    }
  }

  /** The three passes do not interfere: they equal the single pass on every string. */
  lemma {:induction false} EscapesAgree(s: string)
    ensures EscapeLIKE(s) == EscapeLike(s)
  {
    if s != "" {
      var head, tail := [s[0]], s[1..];
      assert s == head + tail;
      EscapesAgree(tail);
      ReplaceConcat(head, tail, '\\', "\\\\");
      var h1 := ReplaceAll(head, '\\', "\\\\");
      var t1 := ReplaceAll(tail, '\\', "\\\\");
      ReplaceConcat(h1, t1, '%', "\\%");
      var h2 := ReplaceAll(h1, '%', "\\%");
      ReplaceConcat(h2, ReplaceAll(t1, '%', "\\%"), '_', "\\_");
      assert ReplaceAll(h2, '_', "\\_") == EscapeLike(head) by { EscapeOne(s[0]); }
      assert EscapeLike(s) == EscapeLike(head) + EscapeLike(tail);
    }
  }

  lemma ReplaceOne(x: char, c: char, with: string)
    ensures ReplaceAll([x], c, with) == if x == c then with else [x]
  {
    assert [x][1..] == "";
  }

  lemma ReplaceTwo(x: char, y: char, c: char, with: string)
    ensures ReplaceAll([x, y], c, with) == (if x == c then with else [x]) + (if y == c then with else [y])
  {
    ReplaceOne(x, c, with);
    ReplaceOne(y, c, with);
    ReplaceConcat([x], [y], c, with);
    assert [x] + [y] == [x, y];
  }

  lemma EscapeOne(c: char)
    ensures EscapeLIKE([c]) == EscapeLike([c])
  {
    assert EscapeLike([c]) == if c == '\\' || c == '%' || c == '_' then ['\\', c] else [c] by {
      assert [c][1..] == "";
    }
    hide ReplaceAll, EscapeLike;
    ReplaceOne(c, '\\', "\\\\");
    ReplaceOne(c, '%', "\\%");
    ReplaceOne(c, '_', "\\_");
    ReplaceTwo('\\', c, '%', "\\%");
    ReplaceTwo('\\', c, '_', "\\_");
    assert "\\\\" == ['\\', '\\'] && "\\%" == ['\\', '%'] && "\\_" == ['\\', '_'];
  }

  lemma {:induction false} LikeEscaped(text: string, value: string, rest: string, same: Matching)
    ensures Like(text, EscapeLike(value) + rest, same) <==> StartsWith(text, value, same) && Like(text[|value|..], rest, same)
  {
    var pattern := EscapeLike(value) + rest;
    if value == "" {
      assert pattern == rest && text[0..] == text;
    } else {
      var tail := EscapeLike(value[1..]) + rest;
      if value[0] == '\\' || value[0] == '%' || value[0] == '_' {
        assert pattern == ['\\', value[0]] + tail;
        assert pattern[2..] == tail;
      } else {
        assert pattern == [value[0]] + tail;
        assert pattern[1..] == tail;
      }
      if text != "" {
        LikeEscaped(text[1..], value[1..], rest, same);
        assert StartsWith(text, value, same) <==> same(text[0], value[0]) && StartsWith(text[1..], value[1..], same) by {
          StartsWithTail(text, value, same);
        }
        if StartsWith(text, value, same) {
          assert text[1..][|value| - 1..] == text[|value|..];
        }
      }
    }
  }

  lemma StartsWithTail(text: string, value: string, same: Matching)
    requires text != "" && value != ""
    ensures StartsWith(text, value, same) <==> same(text[0], value[0]) && StartsWith(text[1..], value[1..], same)
  {
    if same(text[0], value[0]) && StartsWith(text[1..], value[1..], same) {
      forall i | 0 <= i < |value| ensures same(text[i], value[i]) {
        if i > 0 {
          assert same(text[1..][i - 1], value[1..][i - 1]);
        }
      }
    }
  }

  lemma {:induction false} LikeAnything(text: string, same: Matching)
    ensures Like(text, "%", same)
  {
    if text != "" {
      LikeAnything(text[1..], same);
    }
  }

  /** An escaped value followed by `%` matches exactly the texts that start with the value. */
  lemma LikeIsStartsWith(text: string, value: string, same: Matching)
    ensures Like(text, EscapeLIKE(value) + "%", same) <==> StartsWith(text, value, same)
  {
    EscapesAgree(value);
    LikeEscaped(text, value, "%", same);
    if StartsWith(text, value, same) {
      LikeAnything(text[|value|..], same);
    }
  }

  /** Between two `%` it matches exactly the texts that contain the value. */
  lemma {:induction false} LikeIsContains(text: string, value: string, same: Matching)
    ensures Like(text, "%" + EscapeLIKE(value) + "%", same) <==> Contains(text, value, same)
  {
    var inner := EscapeLIKE(value) + "%";
    assert "%" + EscapeLIKE(value) + "%" == "%" + inner;
    assert ("%" + inner)[1..] == inner;
    LikeIsStartsWith(text, value, same);
    assert text[0..] == text;
    if text != "" {
      LikeIsContains(text[1..], value, same);
      assert "%" + EscapeLIKE(value) + "%" == "%" + inner;
      if Contains(text[1..], value, same) {
        var i :| 0 <= i <= |text| - 1 && StartsWith(text[1..][i..], value, same);
        assert text[1..][i..] == text[i + 1..];
      }
      if Contains(text, value, same) && !StartsWith(text, value, same) {
        var i :| 0 <= i <= |text| && StartsWith(text[i..], value, same);
        assert text[i..] == text[1..][i - 1..];
      }
    } else if Contains(text, value, same) {
      var i :| 0 <= i <= |text| && StartsWith(text[i..], value, same);
      assert text[i..] == text;
    }
  }
}
