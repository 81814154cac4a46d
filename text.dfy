/**
 * The string primitives the program relies on, over `string` (a sequence of
 * Unicode scalar values): `str::split_whitespace`, `str::split` on one
 * character, and the matching joins used to state round trips.
 */
module Text {

  /** `char::is_whitespace`: the characters with the Unicode White_Space property. */
  predicate IsWhitespace(c: char) {
    ('\t' <= c <= '\r') || c == ' ' || c == '\U{85}' || c == '\U{A0}' || c == '\U{1680}'
    || ('\U{2000}' <= c <= '\U{200A}') || c == '\U{2028}' || c == '\U{2029}'
    || c == '\U{202F}' || c == '\U{205F}' || c == '\U{3000}'
  }

  predicate IsWord(w: string) {
    w != [] && forall i :: 0 <= i < |w| ==> !IsWhitespace(w[i])
  }

  /** Length of the longest prefix of `s` that holds no whitespace. */
  function WordLength(s: string): (n: nat)
    ensures n <= |s|
    ensures forall i :: 0 <= i < n ==> !IsWhitespace(s[i])
    ensures n < |s| ==> IsWhitespace(s[n])
  {
    if s == [] || IsWhitespace(s[0]) then 0 else 1 + WordLength(s[1..])
  }

  /** `s.split_whitespace()`: the maximal runs of non-whitespace characters, in order. */
  function Tokens(s: string): (ts: seq<string>)
    ensures forall t :: t in ts ==> IsWord(t)
    decreases |s|
  {
    if s == [] then []
    else if IsWhitespace(s[0]) then Tokens(s[1..])
    else
      var n := WordLength(s);
      [s[..n]] + Tokens(s[n..])
  }

  /** Words separated by single spaces: the shape of an HTTP request line. */
  function JoinWords(ws: seq<string>): string {
    if ws == [] then ""
    else if |ws| == 1 then ws[0]
    else ws[0] + " " + JoinWords(ws[1..])
  }

  lemma {:induction false} WordLengthOfWord(w: string, rest: string)
    requires IsWord(w)
    requires rest == [] || IsWhitespace(rest[0])
    ensures WordLength(w + rest) == |w|
    decreases |w|
  {
    if |w| > 1 {
      assert (w + rest)[1..] == w[1..] + rest;
      WordLengthOfWord(w[1..], rest);
    } else {
      assert (w + rest)[1..] == rest;
    }
  }

  /** A word followed by whitespace or nothing is read back as one token. */
  lemma {:induction false} TokensOfWord(w: string, rest: string)
    requires IsWord(w)
    requires rest == [] || IsWhitespace(rest[0])
    ensures Tokens(w + rest) == [w] + Tokens(rest)
  {
    WordLengthOfWord(w, rest);
    var s := w + rest;
    assert s[..|w|] == w;
    assert s[|w|..] == rest;
  }

  /** Splitting a space-separated line of words gives the words back. */
  lemma {:induction false} TokensJoinWords(ws: seq<string>)
    requires forall w :: w in ws ==> IsWord(w)
    ensures Tokens(JoinWords(ws)) == ws
  {
    if ws == [] {
    } else if |ws| == 1 {
      TokensOfWord(ws[0], "");
      assert ws[0] + "" == ws[0];
    } else {
      var rest := " " + JoinWords(ws[1..]);
      assert JoinWords(ws) == ws[0] + rest;
      TokensOfWord(ws[0], rest);
      assert rest[1..] == JoinWords(ws[1..]);
      TokensJoinWords(ws[1..]);
    }
  }

  /** Whitespace in front of a text adds no tokens. */
  lemma {:induction false} TokensLeading(ws: string, s: string)
    requires forall i :: 0 <= i < |ws| ==> IsWhitespace(ws[i])
    ensures Tokens(ws + s) == Tokens(s)
    decreases |ws|
  {
    if ws != [] {
      assert (ws + s)[1..] == ws[1..] + s;
      TokensLeading(ws[1..], s);
    } else {
      assert ws + s == s;
    }
  }

  /** A word cut short by whitespace keeps its length whatever follows. */
  lemma {:induction false} WordLengthExtend(a: string, c: string)
    requires WordLength(a) < |a|
    ensures WordLength(a + c) == WordLength(a)
    decreases |a|
  {
    assert (a + c)[0] == a[0];
    if !IsWhitespace(a[0]) {
      assert (a + c)[1..] == a[1..] + c;
      WordLengthExtend(a[1..], c);
    }
  }

  /**
   * A non-empty run of whitespace separates tokens, however long it is:
   * the tokens of `a + ws + b` are those of `a`, then those of `b`.
   */
  lemma {:induction false} TokensSeparated(a: string, ws: string, b: string)
    requires ws != [] && forall i :: 0 <= i < |ws| ==> IsWhitespace(ws[i])
    ensures Tokens(a + ws + b) == Tokens(a) + Tokens(b)
    decreases |a|
  {
    var s := a + ws + b;
    if a == [] {
      assert s == ws + b;
      TokensLeading(ws, b);
    } else if IsWhitespace(a[0]) {
      assert s[1..] == a[1..] + ws + b;
      TokensSeparated(a[1..], ws, b);
    } else {
      var n := WordLength(a);
      TokensWordStep(a, ws + b);
      assert s == a + (ws + b);
      assert a[n..] + (ws + b) == a[n..] + ws + b;
      TokensSeparated(a[n..], ws, b);
    }
  }

  /** The first token of `a + rest` is that of `a`, when `a`'s first word is cut short or `rest` starts with whitespace. */
  lemma TokensWordStep(a: string, rest: string)
    requires a != [] && !IsWhitespace(a[0])
    requires rest != [] && IsWhitespace(rest[0])
    ensures Tokens(a + rest) == [a[..WordLength(a)]] + Tokens(a[WordLength(a)..] + rest)
  {
    var n := WordLength(a);
    var s := a + rest;
    if n < |a| {
      WordLengthExtend(a, rest);
    } else {
      WordLengthOfWord(a, rest);
    }
    assert s[..n] == a[..n];
    assert s[n..] == a[n..] + rest;
  }

  /** `s.split(sep)`: the pieces between occurrences of `sep`; always at least one. */
  function Split(s: string, sep: char): (parts: seq<string>)
    ensures |parts| >= 1
    ensures forall p :: p in parts ==> sep !in p
    decreases |s|
  {
    if s == [] then [""]
    else if s[0] == sep then [""] + Split(s[1..], sep)
    else
      var r := Split(s[1..], sep);
      [[s[0]] + r[0]] + r[1..]
  }

  /** `parts.join(sep)`: the inverse of `Split`. */
  function Join(parts: seq<string>, sep: char): string
    requires |parts| >= 1
  {
    if |parts| == 1 then parts[0] else parts[0] + [sep] + Join(parts[1..], sep)
  }

  lemma {:induction false} JoinSplit(s: string, sep: char)
    ensures Join(Split(s, sep), sep) == s
    decreases |s|
  {
    if s == [] {
    } else if s[0] == sep {
      JoinSplit(s[1..], sep);
      assert Split(s, sep)[1..] == Split(s[1..], sep);
    } else {
      var r := Split(s[1..], sep);
      JoinSplit(s[1..], sep);
      var parts := Split(s, sep);
      assert parts[1..] == r[1..];
      if |r| == 1 {
        assert parts == [[s[0]] + r[0]];
      } else {
        assert Join(r, sep) == r[0] + [sep] + Join(r[1..], sep);
      }
    }
  }

  lemma {:induction false} SplitJoin(parts: seq<string>, sep: char)
    requires |parts| >= 1
    requires forall p :: p in parts ==> sep !in p
    ensures Split(Join(parts, sep), sep) == parts
    decreases |parts|
  {
    assert parts[0] in parts;
    if |parts| == 1 {
      SplitNoSep(parts[0], sep);
    } else {
      assert forall p :: p in parts[1..] ==> p in parts;
      var tail := Join(parts[1..], sep);
      SplitJoin(parts[1..], sep);
      SplitAppend(parts[0], tail, sep);
      SplitNoSep(parts[0], sep);
    }
  }

  /** A text without `sep` is one piece. */
  lemma {:induction false} SplitNoSep(s: string, sep: char)
    requires sep !in s
    ensures Split(s, sep) == [s]
    decreases |s|
  {
    if s != [] {
      assert s[0] in s;
      assert forall c :: c in s[1..] ==> c in s;
      SplitNoSep(s[1..], sep);
      assert [s[0]] + s[1..] == s;
    }
  }

  /** Splitting distributes over a separator: the pieces of `a`, then those of `b`. */
  lemma {:induction false} SplitAppend(a: string, b: string, sep: char)
    ensures Split(a + [sep] + b, sep) == Split(a, sep) + Split(b, sep)
    decreases |a|
  {
    var s := a + [sep] + b;
    if a == [] {
      assert s[1..] == b;
    } else {
      assert s[1..] == a[1..] + [sep] + b;
      SplitAppend(a[1..], b, sep);
    }
  }

  /** `s.split(sep).last()`, which always exists: the text after the last `sep`. */
  function AfterLast(s: string, sep: char): string {
    var parts := Split(s, sep);
    parts[|parts| - 1]
  }

  lemma {:induction false} JoinSnoc(parts: seq<string>, sep: char)
    requires |parts| >= 2
    ensures Join(parts, sep) == Join(parts[..|parts| - 1], sep) + [sep] + parts[|parts| - 1]
  {
    if |parts| > 2 {
      JoinSnoc(parts[1..], sep);
      assert parts[1..][..|parts| - 2] == parts[..|parts| - 1][1..];
    }
  }

  /**
   * The text after the last `sep` holds no `sep`, and what precedes it is
   * either nothing (when `s` holds no `sep`) or ends with `sep`.
   */
  lemma AfterLastSpec(s: string, sep: char)
    ensures sep !in AfterLast(s, sep)
    ensures |AfterLast(s, sep)| <= |s|
    ensures s[|s| - |AfterLast(s, sep)|..] == AfterLast(s, sep)
    ensures sep !in s ==> AfterLast(s, sep) == s
    ensures sep in s ==> |AfterLast(s, sep)| < |s| && s[|s| - |AfterLast(s, sep)| - 1] == sep
  {
    var parts := Split(s, sep);
    JoinSplit(s, sep);
    if sep !in s {
      SplitNoSep(s, sep);
    } else {
      assert parts[0] in parts;
      assert |parts| >= 2;
      JoinSnoc(parts, sep);
    }
  }

  /** The identifier after the last separator is recovered exactly. */
  lemma AfterLastOf(prefix: string, id: string, sep: char)
    requires sep !in id
    ensures AfterLast(prefix + [sep] + id, sep) == id
  {
    SplitAppend(prefix, id, sep);
    SplitNoSep(id, sep);
  }
}
