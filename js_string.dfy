/** The few JavaScript string operations the backend relies on, written out
    over `seq<char>`: `trim`, `split` on a one-character separator (with its
    inverse `join`), `startsWith`, and removal of one trailing slash. */
module JsString {

  /** ECMAScript WhiteSpace and LineTerminator code points: exactly what
      `String.prototype.trim` removes. */
  predicate IsWhitespace(c: char) {
    c == '\t' || c == '\n' || c == '\U{000B}' || c == '\U{000C}' || c == '\r' || c == ' '
    || c == '\U{00A0}' || c == '\U{1680}' || ('\U{2000}' <= c <= '\U{200A}')
    || c == '\U{2028}' || c == '\U{2029}' || c == '\U{202F}' || c == '\U{205F}'
    || c == '\U{3000}' || c == '\U{FEFF}'
  }

  /** Drops the leading whitespace. */
  function TrimStart(s: string): string {
    if |s| > 0 && IsWhitespace(s[0]) then TrimStart(s[1..]) else s
  }

  /** Drops the trailing whitespace. */
  function TrimEnd(s: string): string {
    if |s| > 0 && IsWhitespace(s[|s| - 1]) then TrimEnd(s[..|s| - 1]) else s
  }

  predicate AllWhitespace(t: string) {
    forall k :: 0 <= k < |t| ==> IsWhitespace(t[k])
  }

  /** `s.trim()`: a contiguous middle part of `s`, with only whitespace
      around it. */
  function Trim(s: string): (r: string)
    ensures |r| <= |s|
    ensures var i := |s| - |TrimStart(s)|;
      && 0 <= i && i + |r| <= |s| && r == s[i..i + |r|]
      && AllWhitespace(s[..i]) && AllWhitespace(s[i + |r|..])
  {
    TrimStartRemovesWhitespacePrefix(s);
    TrimEndRemovesWhitespaceSuffix(TrimStart(s));
    TrimEnd(TrimStart(s))
  }

  /** TrimStart removes a whitespace prefix, and exactly the longest one. */
  lemma {:induction false} TrimStartRemovesWhitespacePrefix(s: string)
    ensures var r := TrimStart(s);
      |r| <= |s| && r == s[|s| - |r|..]
      && (forall k :: 0 <= k < |s| - |r| ==> IsWhitespace(s[k]))
      && (r == [] || !IsWhitespace(r[0]))
  {
    if |s| > 0 && IsWhitespace(s[0]) {
      var t := s[1..];
      TrimStartRemovesWhitespacePrefix(t);
      var r := TrimStart(t);
      assert TrimStart(s) == r;
      assert t[|t| - |r|..] == s[|s| - |r|..];
      forall k | 0 <= k < |s| - |r| ensures IsWhitespace(s[k]) {
        if k > 0 {
          assert s[k] == t[k - 1];
        }
      }
    }
  }

  /** TrimEnd removes a whitespace suffix, and exactly the longest one. */
  lemma {:induction false} TrimEndRemovesWhitespaceSuffix(s: string)
    ensures var r := TrimEnd(s);
      |r| <= |s| && r == s[..|r|]
      && (forall k :: |r| <= k < |s| ==> IsWhitespace(s[k]))
      && (r == [] || !IsWhitespace(r[|r| - 1]))
  {
    if |s| > 0 && IsWhitespace(s[|s| - 1]) {
      var t := s[..|s| - 1];
      TrimEndRemovesWhitespaceSuffix(t);
      var r := TrimEnd(t);
      assert TrimEnd(s) == r;
      assert t[..|r|] == s[..|r|];
      forall k | |r| <= k < |s| ensures IsWhitespace(s[k]) {
        if k < |s| - 1 {
          assert s[k] == t[k];
        }
      }
    }
  }

  /** A trimmed string neither starts nor ends with whitespace, and trimming
      it again changes nothing. */
  lemma TrimIsTrimmed(s: string)
    ensures var t := Trim(s);
      (t == [] || (!IsWhitespace(t[0]) && !IsWhitespace(t[|t| - 1]))) && Trim(t) == t
  {
    var u := TrimStart(s);
    var t := TrimEnd(u);
    TrimStartRemovesWhitespacePrefix(s);
    TrimEndRemovesWhitespaceSuffix(u);
    if t != [] {
      assert t[0] == u[0];
    }
  }

  /** `s.startsWith(p)`. */
  predicate StartsWith(s: string, p: string) {
    |p| <= |s| && s[..|p|] == p
  }

  /** `s.split(sep)` for a one-character separator: the maximal runs of
      non-separator characters, including empty ones. */
  function Split(s: string, sep: char): (r: seq<string>)
    ensures |r| >= 1
  {
    if s == [] then [[]]
    else if s[0] == sep then [[]] + Split(s[1..], sep)
    else
      var rest := Split(s[1..], sep);
      [[s[0]] + rest[0]] + rest[1..]
  }

  /** No field holds the separator. */
  predicate SeparatorFree(fields: seq<string>, sep: char) {
    forall i :: 0 <= i < |fields| ==> sep !in fields[i]
  }

  /** No field of a split holds the separator. */
  lemma {:induction false} SplitFieldsFree(s: string, sep: char)
    ensures SeparatorFree(Split(s, sep), sep)
  {
    if s != [] {
      SplitFieldsFree(s[1..], sep);
    }
  }

  /** `fields.join(sep)`: starts with the first field, followed by the
      separator when more fields follow. */
  function Join(fields: seq<string>, sep: char): (r: string)
    ensures |fields| >= 1 ==> fields[0] <= r
    ensures |fields| >= 2 ==> |fields[0]| < |r| && r[|fields[0]|] == sep
  {
    if |fields| == 0 then []
    else if |fields| == 1 then fields[0]
    else fields[0] + [sep] + Join(fields[1..], sep)
  }

  /** Joining the fields of a split gives back the string. */
  lemma {:induction false} JoinSplit(s: string, sep: char)
    ensures Join(Split(s, sep), sep) == s
  {
    if s == [] {
    } else if s[0] == sep {
      JoinSplit(s[1..], sep);
      var rest := Split(s[1..], sep);
      assert Join([[]] + rest, sep) == [] + [sep] + Join(rest, sep);
    } else {
      JoinSplit(s[1..], sep);
      var rest := Split(s[1..], sep);
      if |rest| == 1 {
      } else {
        assert Join(rest, sep) == rest[0] + [sep] + Join(rest[1..], sep);
        assert ([[s[0]] + rest[0]] + rest[1..])[1..] == rest[1..];
      }
    }
  }

  /** Splitting a join of separator-free fields gives back the fields. */
  lemma {:induction false} SplitJoin(fields: seq<string>, sep: char)
    requires |fields| >= 1
    requires SeparatorFree(fields, sep)
    ensures Split(Join(fields, sep), sep) == fields
  {
    if |fields| == 1 {
      SplitField(fields[0], [], sep);
    } else {
      SplitJoin(fields[1..], sep);
      var tail := [sep] + Join(fields[1..], sep);
      SplitField(fields[0], tail, sep);
      assert tail[1..] == Join(fields[1..], sep);
      assert Join(fields, sep) == fields[0] + tail;
      assert [fields[0]] + fields[1..] == fields;
    }
  }

  /** Splitting `f + tail` where `f` holds no separator extends the first
      field of the tail's split by `f`. */
  lemma {:induction false} SplitField(f: string, tail: string, sep: char)
    requires sep !in f
    ensures tail == [] ==> Split(f, sep) == [f]
    ensures tail != [] && tail[0] == sep ==> Split(f + tail, sep) == [f] + Split(tail[1..], sep)
  {
    if f == [] {
      assert f + tail == tail;
    } else {
      SplitField(f[1..], tail, sep);
      assert (f + tail)[1..] == f[1..] + tail;
      assert [f[0]] + f[1..] == f;
    }
  }

  /** `s.replace(/\/$/, "")`: removes one `/` at the very end, if any. */
  function StripTrailingSlash(s: string): (r: string)
    ensures |s| > 0 && s[|s| - 1] == '/' ==> r + "/" == s
    ensures !(|s| > 0 && s[|s| - 1] == '/') ==> r == s
  {
    if |s| > 0 && s[|s| - 1] == '/' then s[..|s| - 1] else s
  }

  /** A decimal digit as the regular expression class `\d` (without the
      `u` flag) matches it. */
  predicate IsAsciiDigit(c: char) {
    '0' <= c <= '9'
  }
}
