/** The JavaScript string built-ins the components call: `trim`, `toLowerCase`,
    `startsWith` and `split` with a one-character separator. */
module Text {

  /** ECMAScript's WhiteSpace and LineTerminator characters, which `trim` removes. */
  predicate IsWhiteSpace(c: char)
  {
    || c == ' ' || c == '\t' || c == '\n' || c == '\r'
    || c == '\U{B}' || c == '\U{C}' || c == '\U{A0}' || c == '\U{1680}'
    || ('\U{2000}' <= c <= '\U{200A}')
    || c == '\U{2028}' || c == '\U{2029}' || c == '\U{202F}' || c == '\U{205F}'
    || c == '\U{3000}' || c == '\U{FEFF}'
  }

  /** Upper-case letters of the Basic Latin and Latin-1 blocks, which `toLowerCase`
      maps to the letter 0x20 code points further on. */
  predicate IsUpper(c: char)
  {
    ('A' <= c <= 'Z') || ('\U{C0}' <= c <= '\U{DE}' && c != '\U{D7}')
  }

  function LowerChar(c: char): (d: char)
    ensures IsUpper(c) ==> d as int == c as int + 0x20
    ensures !IsUpper(c) ==> d == c
    ensures !IsUpper(d)
    ensures IsWhiteSpace(d) <==> IsWhiteSpace(c)
  {
    if IsUpper(c) then (c as int + 0x20) as char else c
  }

  /** `String.prototype.toLowerCase`, character by character. */
  function ToLowerCase(s: string): (r: string)
    ensures |r| == |s|
    ensures forall i :: 0 <= i < |s| ==> r[i] == LowerChar(s[i])
  {
    seq(|s|, i requires 0 <= i < |s| => LowerChar(s[i]))
  }

  lemma ToLowerCaseIdempotent(s: string)
    ensures ToLowerCase(ToLowerCase(s)) == ToLowerCase(s)
  {
  }

  /** The number of whitespace characters at the start of `s`. */
  function LeadingWhiteSpace(s: string): (n: nat)
    ensures n <= |s|
    ensures forall i :: 0 <= i < n ==> IsWhiteSpace(s[i])
    ensures n < |s| ==> !IsWhiteSpace(s[n])
  {
    if s != [] && IsWhiteSpace(s[0]) then 1 + LeadingWhiteSpace(s[1..]) else 0
  }

  /** The number of whitespace characters at the end of `s`. */
  function TrailingWhiteSpace(s: string): (n: nat)
    ensures n <= |s|
    ensures forall i :: |s| - n <= i < |s| ==> IsWhiteSpace(s[i])
    ensures n < |s| ==> !IsWhiteSpace(s[|s| - 1 - n])
  {
    if s != [] && IsWhiteSpace(s[|s| - 1]) then 1 + TrailingWhiteSpace(s[..|s| - 1]) else 0
  }

  /** Neither the first nor the last character is whitespace. */
  predicate IsTrimmed(s: string)
  {
    s == [] || (!IsWhiteSpace(s[0]) && !IsWhiteSpace(s[|s| - 1]))
  }

  /** `String.prototype.trim`: `s` without its leading and trailing whitespace. */
  function Trim(s: string): (r: string)
    ensures IsTrimmed(r)
    ensures exists i, j :: 0 <= i <= j <= |s| && r == s[i..j]
                           && (forall k :: 0 <= k < i ==> IsWhiteSpace(s[k]))
                           && (forall k :: j <= k < |s| ==> IsWhiteSpace(s[k]))
  {
    var i := LeadingWhiteSpace(s);
    var a := s[i..];
    var r := a[..|a| - TrailingWhiteSpace(a)];
    assert r == s[i..i + |r|];
    assert forall k :: i + |r| <= k < |s| ==> IsWhiteSpace(s[k]) by {
      forall k | i + |r| <= k < |s| ensures IsWhiteSpace(s[k]) {
        assert s[k] == a[k - i];
      }
    }
    r
  }

  /** Trimming an already trimmed string changes nothing. */
  lemma TrimTrimmed(s: string)
    requires IsTrimmed(s)
    ensures Trim(s) == s
  {
    assert LeadingWhiteSpace(s) == 0;
    assert TrailingWhiteSpace(s) == 0;
  }

  /** Lower-casing neither adds nor removes whitespace at the ends. */
  lemma ToLowerCaseKeepsTrimmed(s: string)
    requires IsTrimmed(s)
    ensures IsTrimmed(ToLowerCase(s))
  {
  }

  /** `String.prototype.startsWith`. */
  predicate StartsWith(s: string, prefix: string): (r: bool)
    ensures r <==> |prefix| <= |s| && forall i :: 0 <= i < |prefix| ==> s[i] == prefix[i]
    ensures prefix == [] ==> r
  {
    |prefix| <= |s| && s[..|prefix|] == prefix
  }

  /** `String.prototype.split(sep)` with a one-character separator: the pieces
      between the occurrences of `sep`; there is always at least one. */
  function Split(s: string, sep: char): (r: seq<string>)
    ensures |r| >= 1
    ensures forall i :: 0 <= i < |r| ==> sep !in r[i]
  {
    if s == [] then [[]]
    else
      var rest := Split(s[1..], sep);
      if s[0] == sep then [[]] + rest
      else [[s[0]] + rest[0]] + rest[1..]
  }

  /** `Array.prototype.join(sep)`: the pieces with `sep` between each two. */
  function Join(parts: seq<string>, sep: char): (r: string)
    requires |parts| >= 1
  {
    if |parts| == 1 then parts[0] else parts[0] + [sep] + Join(parts[1..], sep)
  }

  /** Splitting loses nothing: joining the pieces gives back the string. */
  lemma {:induction false} JoinSplit(s: string, sep: char)
    ensures Join(Split(s, sep), sep) == s
    decreases |s|
  {
    if s != [] {
      JoinSplit(s[1..], sep);
      var rest := Split(s[1..], sep);
      if s[0] == sep {
        assert Split(s, sep) == [[]] + rest;
        assert Split(s, sep)[1..] == rest;
      } else {
        var r := Split(s, sep);
        assert r[0] == [s[0]] + rest[0] && r[1..] == rest[1..];
        if |rest| > 1 {
          assert Join(rest, sep) == rest[0] + [sep] + Join(rest[1..], sep);
        }
        assert s == [s[0]] + s[1..];
      }
    }
  }

  /** Conversely, pieces free of the separator are what splitting their join gives. */
  lemma {:induction false} SplitJoin(parts: seq<string>, sep: char)
    requires |parts| >= 1
    requires forall i :: 0 <= i < |parts| ==> sep !in parts[i]
    ensures Split(Join(parts, sep), sep) == parts
    decreases |parts|, |parts[0]|
  {
    if |parts| == 1 {
      SplitWithoutSeparator(parts[0], sep);
    } else {
      var tail := parts[1..];
      SplitJoin(tail, sep);
      var head := parts[0];
      if head == [] {
        var j := Join(parts, sep);
        assert j == [sep] + Join(tail, sep);
        assert j[1..] == Join(tail, sep);
        assert Split(j, sep) == [[]] + tail;
        assert parts == [[]] + tail;
      } else {
        var shorter := [head[1..]] + tail;
        assert shorter[1..] == tail;
        assert forall i :: 0 <= i < |shorter| ==> sep !in shorter[i];
        SplitJoin(shorter, sep);
        var j := Join(parts, sep);
        assert j == [head[0]] + Join(shorter, sep);
        assert j[1..] == Join(shorter, sep);
        assert head[0] != sep;
        assert Split(j, sep) == [[head[0]] + head[1..]] + tail;
        assert [head[0]] + head[1..] == head;
        assert parts == [head] + tail;
      }
    }
  }

  /** A string without the separator splits into itself alone. */
  lemma {:induction false} SplitWithoutSeparator(s: string, sep: char)
    requires sep !in s
    ensures Split(s, sep) == [s]
    decreases |s|
  {
    if s != [] {
      assert sep !in s[1..];
      SplitWithoutSeparator(s[1..], sep);
      assert [s[0]] + s[1..] == s;
    }
  }

  /** The piece after the last separator (`last(s.split(sep))`). */
  function LastPiece(s: string, sep: char): (r: string)
    ensures sep !in r
  {
    var parts := Split(s, sep);
    parts[|parts| - 1]
  }

  /** A string containing the separator splits into at least two pieces. */
  lemma SplitAtSeparator(s: string, sep: char)
    requires sep in s
    ensures |Split(s, sep)| >= 2
  {
    if |Split(s, sep)| == 1 {
      JoinSplit(s, sep);
    }
  }

  /** The last piece is a suffix; it is the whole string when there is no
      separator, and otherwise the character before it is the last separator. */
  lemma {:induction false} LastPieceIsSuffix(s: string, sep: char)
    ensures |LastPiece(s, sep)| <= |s|
    ensures LastPiece(s, sep) == s[|s| - |LastPiece(s, sep)|..]
    ensures sep !in s ==> LastPiece(s, sep) == s
    ensures sep in s ==> s[|s| - |LastPiece(s, sep)| - 1] == sep
    decreases |s|
  {
    if sep !in s {
      SplitWithoutSeparator(s, sep);
    } else {
      var t := s[1..];
      var rest := Split(t, sep);
      if s[0] == sep {
        LastPieceShift(s, sep);
      } else {
        assert sep in t;
        SplitAtSeparator(t, sep);
        LastPieceShift(s, sep);
      }
    }
  }

  /** The step of LastPieceIsSuffix: when the first character is a separator or the
      rest still holds one, the last piece is the rest's, one position further. */
  lemma {:induction false} LastPieceShift(s: string, sep: char)
    requires s != [] && (s[0] == sep || |Split(s[1..], sep)| >= 2)
    requires sep in s
    ensures |LastPiece(s, sep)| <= |s|
    ensures LastPiece(s, sep) == s[|s| - |LastPiece(s, sep)|..]
    ensures s[|s| - |LastPiece(s, sep)| - 1] == sep
    decreases |s|, 0
  {
    var t := s[1..];
    var rest := Split(t, sep);
    assert LastPiece(s, sep) == LastPiece(t, sep);
    LastPieceIsSuffix(t, sep);
    var l := LastPiece(t, sep);
    assert s[|s| - |l|..] == t[|t| - |l|..];
    if sep !in t {
      assert s[0] == sep;
      assert l == t;
    } else {
      assert s[|s| - |l| - 1] == t[|t| - |l| - 1];
    }
  }
}
