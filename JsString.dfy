/**
 * The JavaScript string built-ins that the shopping-list parser relies on,
 * over strings seen as sequences of characters: `trim()`, `split("\n")`
 * and the whitespace class shared by `trim()` and the regular-expression
 * escape `\s`.
 */
module JsString {

  /** The ECMAScript WhiteSpace and LineTerminator code points. `trim()`
      removes exactly these, and `\s` matches exactly these. */
  predicate IsWhitespace(c: char) {
    c == '\t' || c == '\n' || c == '\U{000B}' || c == '\U{000C}' || c == '\r' || c == ' '
    || c == '\U{00A0}' || c == '\U{1680}' || ('\U{2000}' <= c <= '\U{200A}')
    || c == '\U{2028}' || c == '\U{2029}' || c == '\U{202F}' || c == '\U{205F}'
    || c == '\U{3000}' || c == '\U{FEFF}'
  }

  /** The whitespace class holds the space, tab, line feed and carriage
      return, and none of the characters the list syntax is made of: digits,
      the dot and the colon. */
  lemma WhitespaceClass(c: char)
    ensures (c == ' ' || c == '\t' || c == '\n' || c == '\r') ==> IsWhitespace(c)
    ensures IsWhitespace(c) ==> !IsDigit(c) && c != '.' && c != ':'
  {
  }

  /** `\d`: an ASCII decimal digit. */
  predicate IsDigit(c: char) {
    '0' <= c <= '9'
  }

  predicate AllWhitespace(s: string) {
    forall i :: 0 <= i < |s| ==> IsWhitespace(s[i])
  }

  /** Every line is all whitespace. */
  predicate AllLinesBlank(lines: seq<string>) {
    forall i :: 0 <= i < |lines| ==> AllWhitespace(lines[i])
  }

  /** Removes trailing whitespace: the result is a prefix of `s`, everything
      cut off is whitespace, and the result does not end with whitespace. */
  function TrimEnd(s: string): (r: string)
    ensures |r| <= |s| && r == s[..|r|]
    ensures forall i :: |r| <= i < |s| ==> IsWhitespace(s[i])
    ensures r == [] || !IsWhitespace(r[|r| - 1])
  {
    if s != [] && IsWhitespace(s[|s| - 1]) then TrimEnd(s[..|s| - 1]) else s
  }

  /** `s.trim()`. It is empty exactly when `s` is all whitespace, and
      otherwise begins and ends with a non-whitespace character. */
  function Trim(s: string): (r: string)
    ensures |r| <= |s|
    ensures r == [] <==> AllWhitespace(s)
    ensures IsTrimmed(r)
  {
    if s != [] && IsWhitespace(s[0]) then
      var r := Trim(s[1..]);
      assert AllWhitespace(s[1..]) ==> AllWhitespace(s) by {
        if AllWhitespace(s[1..]) {
          forall i | 0 < i < |s| ensures IsWhitespace(s[i]) { assert s[i] == s[1..][i - 1]; }
        }
      }
      r
    else
      var r := TrimEnd(s);
      assert r != [] ==> r[0] == s[0];
      r
  }

  /** `trim()` cuts whitespace from the two ends and nothing else: its result
      is the slice of `s` that starts at some offset `a`, with only whitespace
      before it and after it. */
  lemma {:induction false} TrimIsInfix(s: string) returns (a: nat)
    ensures a + |Trim(s)| <= |s| && Trim(s) == s[a..a + |Trim(s)|]
    ensures forall i :: 0 <= i < a ==> IsWhitespace(s[i])
    ensures forall i :: a + |Trim(s)| <= i < |s| ==> IsWhitespace(s[i])
  {
    if s != [] && IsWhitespace(s[0]) {
      var b := TrimIsInfix(s[1..]);
      var r := Trim(s[1..]);
      assert Trim(s) == r;
      a := b + 1;
      assert s[1..][b..b + |r|] == s[a..a + |r|];
      forall i | 0 <= i < a ensures IsWhitespace(s[i]) {
        if i > 0 { assert s[i] == s[1..][i - 1]; }
      }
      forall i | a + |r| <= i < |s| ensures IsWhitespace(s[i]) {
        assert s[i] == s[1..][i - 1];
      }
    } else {
      a := 0;
    }
  }

  /** Empty, or beginning and ending with a non-whitespace character. */
  predicate IsTrimmed(s: string) {
    s == [] || (!IsWhitespace(s[0]) && !IsWhitespace(s[|s| - 1]))
  }

  /** A trimmed string is its own trim. */
  lemma TrimTrimmed(s: string)
    requires IsTrimmed(s)
    ensures Trim(s) == s
  {
  }

  /** Trimming keeps a final non-whitespace character in place. */
  lemma {:induction false} TrimKeepsLast(s: string)
    requires s != [] && !IsWhitespace(s[|s| - 1])
    ensures Trim(s) != [] && Trim(s)[|Trim(s)| - 1] == s[|s| - 1]
  {
    if IsWhitespace(s[0]) {
      assert s[1..][|s| - 2] == s[|s| - 1];
      TrimKeepsLast(s[1..]);
    } else {
      assert TrimEnd(s) == s;
    }
  }

  /** `s.split("\n")`: the pieces of `s` between line feeds, in order; there
      is always at least one piece, and no piece holds a line feed. */
  function SplitLines(s: string): (r: seq<string>)
    ensures |r| >= 1
    ensures forall i :: 0 <= i < |r| ==> '\n' !in r[i]
  {
    if s == [] then [""]
    else
      var rest := SplitLines(s[1..]);
      if s[0] == '\n' then [""] + rest
      else [[s[0]] + rest[0]] + rest[1..]
  }

  /** `lines.join("\n")`, the inverse of `SplitLines`: the first line comes
      first, followed by a line feed when more lines follow; a single line
      joins to itself. */
  function JoinLines(lines: seq<string>): (r: string)
    ensures lines != [] ==> lines[0] <= r
    ensures |lines| >= 2 ==> |lines[0]| < |r| && r[|lines[0]|] == '\n'
    ensures |lines| == 1 ==> r == lines[0]
  {
    if lines == [] then ""
    else if |lines| == 1 then lines[0]
    else lines[0] + "\n" + JoinLines(lines[1..])
  }

  /** Joining the pieces of a split gives back the original string. */
  lemma {:induction false} JoinSplitLines(s: string)
    ensures JoinLines(SplitLines(s)) == s
  {
    if s != [] {
      var rest := SplitLines(s[1..]);
      JoinSplitLines(s[1..]);
      if s[0] == '\n' {
        assert s == "\n" + s[1..];
      } else if |rest| == 1 {
        assert s == [s[0]] + s[1..];
      } else {
        var r := SplitLines(s);
        assert r[1..] == rest[1..];
        assert s == [s[0]] + s[1..];
      }
    }
  }

  /** Splitting a join of line-feed-free pieces gives back the pieces. */
  lemma {:induction false} SplitJoinLines(lines: seq<string>)
    requires |lines| >= 1
    requires forall i :: 0 <= i < |lines| ==> '\n' !in lines[i]
    ensures SplitLines(JoinLines(lines)) == lines
  {
    if |lines| == 1 {
      SplitNoLineFeed(lines[0]);
    } else {
      SplitJoinLines(lines[1..]);
      SplitPrefix(lines[0], JoinLines(lines[1..]));
      assert lines == [lines[0]] + lines[1..];
    }
  }

  /** A string without line feeds splits into itself alone. */
  lemma {:induction false} SplitNoLineFeed(s: string)
    requires '\n' !in s
    ensures SplitLines(s) == [s]
  {
    if s != [] {
      SplitNoLineFeed(s[1..]);
      assert s == [s[0]] + s[1..];
    }
  }

  /** A line-feed-free piece followed by a line feed becomes the first line. */
  lemma {:induction false} SplitPrefix(a: string, b: string)
    requires '\n' !in a
    ensures SplitLines(a + "\n" + b) == [a] + SplitLines(b)
  {
    if a == [] {
      assert a + "\n" + b == "\n" + b;
      assert ("\n" + b)[1..] == b;
    } else {
      SplitPrefix(a[1..], b);
      assert (a + "\n" + b)[1..] == a[1..] + "\n" + b;
      assert ([a[0]] + a[1..]) == a;
    }
  }

  /** A string is all whitespace exactly when each of its lines is. */
  lemma {:induction false} SplitLinesBlank(s: string)
    ensures AllWhitespace(s) <==> AllLinesBlank(SplitLines(s))
  {
    if s != [] {
      var rest := SplitLines(s[1..]);
      var r := SplitLines(s);
      SplitLinesBlank(s[1..]);
      assert AllWhitespace(s) <==> IsWhitespace(s[0]) && AllWhitespace(s[1..]) by {
        if IsWhitespace(s[0]) && AllWhitespace(s[1..]) {
          forall i | 0 <= i < |s| ensures IsWhitespace(s[i]) {
            if i > 0 { assert s[i] == s[1..][i - 1]; }
          }
        }
        if AllWhitespace(s) {
          forall i | 0 <= i < |s[1..]| ensures IsWhitespace(s[1..][i]) {
            assert s[1..][i] == s[i + 1];
          }
        }
      }
      if s[0] == '\n' {
        assert r == [""] + rest;
        AllLinesBlankCons("", rest);
      } else {
        var first := [s[0]] + rest[0];
        assert r == [first] + rest[1..];
        assert rest == [rest[0]] + rest[1..];
        AllLinesBlankCons(first, rest[1..]);
        AllLinesBlankCons(rest[0], rest[1..]);
        assert first[0] == s[0];
        assert AllWhitespace(first) <==> IsWhitespace(s[0]) && AllWhitespace(rest[0]) by {
          if IsWhitespace(s[0]) && AllWhitespace(rest[0]) {
            forall i | 0 <= i < |first| ensures IsWhitespace(first[i]) {
              if i > 0 { assert first[i] == rest[0][i - 1]; }
            }
          }
          if AllWhitespace(first) {
            forall i | 0 <= i < |rest[0]| ensures IsWhitespace(rest[0][i]) {
              assert rest[0][i] == first[i + 1];
            }
          }
        }
      }
    }
  }

  lemma AllLinesBlankCons(line: string, lines: seq<string>)
    ensures AllLinesBlank([line] + lines) <==> AllWhitespace(line) && AllLinesBlank(lines)
  {
    var all := [line] + lines;
    if AllWhitespace(line) && AllLinesBlank(lines) {
      forall i | 0 <= i < |all| ensures AllWhitespace(all[i]) {
        if i > 0 { assert all[i] == lines[i - 1]; }
      }
    }
    if AllLinesBlank(all) {
      assert all[0] == line;
      forall i | 0 <= i < |lines| ensures AllWhitespace(lines[i]) {
        assert lines[i] == all[i + 1];
      }
    }
  }
}
