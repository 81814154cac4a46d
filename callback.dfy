/**
 * Reading the authorization code out of the loopback redirect
 * (`get_spotify_auth_token`): the second whitespace-separated token of the
 * HTTP request line is the request target; the code is the value of the
 * first query pair whose key is `code`. The `state` pair is never looked at.
 */
module Callback {
  import opened Wrappers
  import opened Text

  /** The three ways the callback can be rejected, in the order they are tested. */
  datatype CallbackError =
    | InvalidRequest   // fewer than two tokens on the request line
    | Unparseable      // the URL parser rejected "http://localhost" + target
    | NoCode           // no query pair has the key `code`

  /** One `key=value` piece of a query string, before percent-decoding. */
  datatype Pair = Pair(key: string, value: string)

  /** The origin the request target is appended to before URL parsing. */
  const Origin := "http://localhost"

  /**
   * The query of a URL: what follows the first `?`, up to the first `#`
   * (which starts the fragment); absent when there is no `?` before it.
   */
  function QueryOf(target: string): Option<string> {
    var beforeFragment := Split(target, '#')[0];
    var parts := Split(beforeFragment, '?');
    if |parts| == 1 then None else Some(Join(parts[1..], '?'))
  }

  /** Splitting one query piece at its first `=`; no `=` gives an empty value. */
  function PairOf(piece: string): Pair {
    var kv := Split(piece, '=');
    if |kv| == 1 then Pair(kv[0], "") else Pair(kv[0], Join(kv[1..], '='))
  }

  function PiecesPairs(pieces: seq<string>): seq<Pair> {
    if pieces == [] then []
    else (if pieces[0] == "" then [] else [PairOf(pieces[0])]) + PiecesPairs(pieces[1..])
  }

  /** `application/x-www-form-urlencoded` splitting: pieces between `&`, empty ones skipped. */
  function RawPairs(query: string): seq<Pair> {
    PiecesPairs(Split(query, '&'))
  }

  /**
   * `query_pairs().find(|(key, _)| key == "code")`: the position of the
   * first pair whose decoded key is `code`, if any.
   */
  function FirstCode(pairs: seq<Pair>, decode: string -> string): (r: Option<nat>)
    ensures r.Some? ==> r.value < |pairs| && decode(pairs[r.value].key) == "code"
    ensures r.Some? ==> forall j :: 0 <= j < r.value ==> decode(pairs[j].key) != "code"
    ensures r.None? <==> forall j :: 0 <= j < |pairs| ==> decode(pairs[j].key) != "code"
  {
    if pairs == [] then None
    else if decode(pairs[0].key) == "code" then Some(0)
    else match FirstCode(pairs[1..], decode)
      case None => None
      case Some(i) => Some(i + 1)
  }

  /** A C0 control character or the space: what the URL parser trims from the ends of its input. */
  predicate IsControlOrSpace(c: char) {
    c <= ' '
  }

  /**
   * The input with its trailing C0 controls and spaces removed, as the URL
   * parser does before parsing. Leading ones never occur: the parsed text
   * starts with the origin.
   */
  function TrimEnd(s: string): (t: string)
    ensures t <= s
    ensures t == [] || !IsControlOrSpace(t[|t| - 1])
    ensures forall i :: |t| <= i < |s| ==> IsControlOrSpace(s[i])
  {
    if s != [] && IsControlOrSpace(s[|s| - 1]) then TrimEnd(s[..|s| - 1]) else s
  }

  /**
   * What happens to a request target once it has been taken from the
   * request line. `parses` stands for the URL parser's verdict on the
   * absolute URL and `decode` for its percent-decoding of keys and values.
   * The query is read from the target with trailing controls trimmed.
   */
  function CodeOfTarget(target: string, parses: string -> bool, decode: string -> string)
    : Result<string, CallbackError>
  {
    if !parses(Origin + target) then Err(Unparseable)
    else
      var pairs := match QueryOf(TrimEnd(target)) case None => [] case Some(q) => RawPairs(q);
      match FirstCode(pairs, decode)
      case None => Err(NoCode)
      case Some(i) => Ok(decode(pairs[i].value))
  }

  /** The callback parse applied to the first line the browser sends. */
  function CodeOfRequestLine(line: string, parses: string -> bool, decode: string -> string)
    : (r: Result<string, CallbackError>)
    ensures r == Err(InvalidRequest) <==> |Tokens(line)| < 2
    ensures |Tokens(line)| >= 2 ==> r == CodeOfTarget(Tokens(line)[1], parses, decode)
  {
    var tokens := Tokens(line);
    if |tokens| < 2 then Err(InvalidRequest) else CodeOfTarget(tokens[1], parses, decode)
  }

  /** The form a browser sends: `key=value` pieces joined by `&`. */
  function Pieces(pairs: seq<Pair>): (ps: seq<string>)
    ensures |ps| == |pairs|
  {
    if pairs == [] then [] else [pairs[0].key + "=" + pairs[0].value] + Pieces(pairs[1..])
  }

  function EncodePairs(pairs: seq<Pair>): string {
    if pairs == [] then "" else Join(Pieces(pairs), '&')
  }

  /** Pairs a browser can send unambiguously: keys hold neither `&` nor `=`, values no `&`. */
  predicate Encodable(pairs: seq<Pair>) {
    forall p :: p in pairs ==> '&' !in p.key && '=' !in p.key && '&' !in p.value
  }

  lemma PairOfPiece(key: string, value: string)
    requires '=' !in key
    ensures PairOf(key + "=" + value) == Pair(key, value)
  {
    SplitAppend(key, value, '=');
    SplitNoSep(key, '=');
    JoinSplit(value, '=');
    var kv := Split(key + "=" + value, '=');
    assert kv[1..] == Split(value, '=');
  }

  lemma {:induction false} PiecesRoundTrip(pairs: seq<Pair>)
    requires Encodable(pairs)
    ensures PiecesPairs(Pieces(pairs)) == pairs
    ensures forall p :: p in Pieces(pairs) ==> '&' !in p
  {
    if pairs != [] {
      var p := pairs[0];
      assert p in pairs;
      PairOfPiece(p.key, p.value);
      assert forall q :: q in pairs[1..] ==> q in pairs;
      PiecesRoundTrip(pairs[1..]);
      var piece := p.key + "=" + p.value;
      assert Pieces(pairs)[1..] == Pieces(pairs[1..]);
      assert '&' !in piece;
    }
  }

  /** Splitting an encoded query gives back exactly the pairs that were encoded. */
  lemma RawPairsRoundTrip(pairs: seq<Pair>)
    requires Encodable(pairs)
    ensures RawPairs(EncodePairs(pairs)) == pairs
  {
    PiecesRoundTrip(pairs);
    if pairs != [] {
      SplitJoin(Pieces(pairs), '&');
    }
  }

  /** A path without `?` or `#`, then `?` and a query without `#`: the query is recovered. */
  lemma QueryOfTarget(path: string, query: string)
    requires '?' !in path && '#' !in path && '#' !in query
    ensures QueryOf(path + "?" + query) == Some(query)
  {
    var target := path + "?" + query;
    assert '#' !in target by {
      assert forall c :: c in target ==> c in path || c == '?' || c in query;
    }
    SplitNoSep(target, '#');
    SplitAppend(path, query, '?');
    SplitNoSep(path, '?');
    JoinSplit(query, '?');
    assert Split(target, '?')[1..] == Split(query, '?');
  }

  /** A target with no `?` carries no query, so no code. */
  lemma NoQueryNoCode(target: string, parses: string -> bool, decode: string -> string)
    requires '?' !in target
    requires parses(Origin + target)
    ensures QueryOf(target) == None
    ensures CodeOfTarget(target, parses, decode) == Err(NoCode)
  {
    var trimmed := TrimEnd(target);
    assert forall c :: c in trimmed ==> c in target;
    NoQuestionMarkNoQuery(target);
    NoQuestionMarkNoQuery(trimmed);
  }

  lemma NoQuestionMarkNoQuery(target: string)
    requires '?' !in target
    ensures QueryOf(target) == None
  {
    var before := Split(target, '#')[0];
    JoinSplit(target, '#');
    var parts := Split(target, '#');
    if |parts| > 1 {
      assert target == parts[0] + ['#'] + Join(parts[1..], '#');
    }
    assert forall c :: c in before ==> c in target;
    SplitNoSep(before, '?');
  }

  /**
   * The code of a target built from a path and encoded query pairs: the
   * decoded value of the first pair whose decoded key is `code`, `NoCode`
   * when there is none, `Unparseable` when the parser rejects the URL.
   */
  lemma CodeOfEncodedTarget(path: string, pairs: seq<Pair>, parses: string -> bool, decode: string -> string)
    requires '?' !in path && '#' !in path
    requires Encodable(pairs) && '#' !in EncodePairs(pairs)
    requires EncodePairs(pairs) == [] || !IsControlOrSpace(EncodePairs(pairs)[|EncodePairs(pairs)| - 1])
    ensures var target := path + "?" + EncodePairs(pairs);
      && (!parses(Origin + target) ==> CodeOfTarget(target, parses, decode) == Err(Unparseable))
      && (parses(Origin + target) && FirstCode(pairs, decode).None? ==>
            CodeOfTarget(target, parses, decode) == Err(NoCode))
      && (parses(Origin + target) && FirstCode(pairs, decode).Some? ==>
            CodeOfTarget(target, parses, decode) == Ok(decode(pairs[FirstCode(pairs, decode).value].value)))
  {
    var query := EncodePairs(pairs);
    var target := path + "?" + query;
    TrimEndKeeps(target);
    QueryOfTarget(path, query);
    RawPairsRoundTrip(pairs);
  }

  /** A text that does not end in a control or space is not trimmed. */
  lemma TrimEndKeeps(s: string)
    requires s != [] && !IsControlOrSpace(s[|s| - 1])
    ensures TrimEnd(s) == s
  {
  }

  /**
   * Only the first `code` pair and the keys before it matter: the values
   * before it (the `state` value among them) and every pair after it,
   * however many, never change the result.
   */
  lemma {:induction false} OnlyFirstCodeMatters(p1: seq<Pair>, p2: seq<Pair>, k: nat, decode: string -> string)
    requires FirstCode(p1, decode) == Some(k)
    requires k < |p2|
    requires forall j :: 0 <= j <= k ==> decode(p1[j].key) == decode(p2[j].key)
    requires decode(p1[k].value) == decode(p2[k].value)
    ensures FirstCode(p2, decode) == Some(k)
    ensures decode(p2[FirstCode(p2, decode).value].value) == decode(p1[k].value)
    decreases k
  {
    if k > 0 {
      assert decode(p1[0].key) != "code";
      OnlyFirstCodeMatters(p1[1..], p2[1..], k - 1, decode);
    }
  }

  /** Appending trailing whitespace does not change the tokens. */
  lemma {:induction false} TokensTrailing(s: string, ws: string)
    requires forall i :: 0 <= i < |ws| ==> IsWhitespace(ws[i])
    ensures Tokens(s + ws) == Tokens(s)
    decreases |s| + |ws|
  {
    if s == [] {
      assert s + ws == ws;
      if ws != [] {
        TokensTrailing(s, ws[1..]);
        assert ws[1..] == s + ws[1..];
      }
    } else if IsWhitespace(s[0]) {
      assert (s + ws)[1..] == s[1..] + ws;
      TokensTrailing(s[1..], ws);
    } else {
      var n := WordLength(s);
      WordLengthAppend(s, ws);
      assert (s + ws)[..n] == s[..n];
      assert (s + ws)[n..] == s[n..] + ws;
      TokensTrailing(s[n..], ws);
    }
  }

  lemma {:induction false} WordLengthAppend(s: string, ws: string)
    requires forall i :: 0 <= i < |ws| ==> IsWhitespace(ws[i])
    ensures WordLength(s + ws) == WordLength(s)
    decreases |s|
  {
    if s != [] && !IsWhitespace(s[0]) {
      assert (s + ws)[1..] == s[1..] + ws;
      WordLengthAppend(s[1..], ws);
    } else if s == [] && ws != [] {
      assert (s + ws)[0] == ws[0];
    }
  }

  /** A well-formed request line is read through its target. */
  lemma RequestLineTarget(verb: string, target: string, version: string, parses: string -> bool, decode: string -> string)
    requires IsWord(verb) && IsWord(target) && IsWord(version)
    ensures CodeOfRequestLine(verb + " " + target + " " + version + "\r\n", parses, decode)
         == CodeOfTarget(target, parses, decode)
  {
    var ws := [verb, target, version];
    assert ws[1..] == [target, version] && ws[1..][1..] == [version];
    assert JoinWords([version]) == version;
    assert JoinWords([target, version]) == target + " " + version;
    assert JoinWords(ws) == verb + " " + target + " " + version;
    TokensTrailing(JoinWords(ws), "\r\n");
    TokensJoinWords(ws);
  }

  /**
   * Any amount of whitespace before the verb and between verb and target,
   * and anything after the target that starts with whitespace: the code is
   * still read from the target.
   */
  lemma RequestLineAnySpacing(lead: string, verb: string, gap: string, target: string, tail: string,
                              parses: string -> bool, decode: string -> string)
    requires forall i :: 0 <= i < |lead| ==> IsWhitespace(lead[i])
    requires gap != [] && forall i :: 0 <= i < |gap| ==> IsWhitespace(gap[i])
    requires IsWord(verb) && IsWord(target)
    requires tail == [] || IsWhitespace(tail[0])
    ensures CodeOfRequestLine(lead + verb + gap + target + tail, parses, decode)
         == CodeOfTarget(target, parses, decode)
  {
    var line := lead + verb + gap + target + tail;
    assert line == lead + (verb + gap + (target + tail));
    TokensLeading(lead, verb + gap + (target + tail));
    TokensSeparated(verb, gap, target + tail);
    TokensOfWord(verb, "");
    assert verb + "" == verb;
    TokensOfWord(target, tail);
  }

  lemma ExampleQueries()
    ensures QueryOf("/callback?code=ABC123&state=XYZ") == Some("code=ABC123&state=XYZ")
    ensures QueryOf("/callback?state=XYZ") == Some("state=XYZ")
  {
    assert "/callback" + "?" + "code=ABC123&state=XYZ" == "/callback?code=ABC123&state=XYZ";
    QueryOfTarget("/callback", "code=ABC123&state=XYZ");
    assert "/callback" + "?" + "state=XYZ" == "/callback?state=XYZ";
    QueryOfTarget("/callback", "state=XYZ");
  }

  lemma ExampleCodePairs()
    ensures RawPairs("code=ABC123&state=XYZ") == [Pair("code", "ABC123"), Pair("state", "XYZ")]
  {
    var first, second := Pair("code", "ABC123"), Pair("state", "XYZ");
    var pairs := [first, second];
    assert pairs[1..] == [second] && pairs[1..][1..] == [];
    assert "code" + "=" + "ABC123" == "code=ABC123";
    assert "state" + "=" + "XYZ" == "state=XYZ";
    assert Pieces(pairs) == ["code=ABC123", "state=XYZ"];
    assert ["code=ABC123", "state=XYZ"][1..] == ["state=XYZ"];
    assert Join(["code=ABC123", "state=XYZ"], '&') == "code=ABC123&state=XYZ";
    assert Encodable(pairs);
    RawPairsRoundTrip(pairs);
  }

  lemma ExampleStatePairs()
    ensures RawPairs("state=XYZ") == [Pair("state", "XYZ")]
  {
    var pairs := [Pair("state", "XYZ")];
    assert pairs[1..] == [];
    assert "state" + "=" + "XYZ" == "state=XYZ";
    assert Pieces(pairs) == ["state=XYZ"];
    assert Encodable(pairs);
    RawPairsRoundTrip(pairs);
  }

  lemma ExampleWords()
    ensures IsWord("GET") && IsWord("HTTP/1.1")
    ensures IsWord("/callback?code=ABC123&state=XYZ") && IsWord("/callback?state=XYZ")
  {
  }

  /** Stand-ins for the URL parser on a target it accepts and holds no escapes. */
  function Accepts(url: string): bool { true }
  function Verbatim(s: string): string { s }

  lemma ExampleTargets()
    ensures CodeOfTarget("/callback?code=ABC123&state=XYZ", Accepts, Verbatim) == Ok("ABC123")
    ensures CodeOfTarget("/callback?state=XYZ", Accepts, Verbatim) == Err(NoCode)
  {
    ExampleQueries();
    ExampleCodePairs();
    ExampleStatePairs();
    assert FirstCode([Pair("code", "ABC123"), Pair("state", "XYZ")], Verbatim) == Some(0);
    assert FirstCode([Pair("state", "XYZ")], Verbatim) == None;
  }

  /**
   * A control character at the end of the target is trimmed by the parser
   * and never reaches the code; one inside the query is kept.
   */
  lemma TrailingControlTrimmed(target: string)
    requires target == "/callback?code=AB\U{1}"
    ensures CodeOfTarget(target, Accepts, Verbatim) == Ok("AB")
  {
    assert target[..|target| - 1] == "/callback?code=AB";
    TrimEndKeeps("/callback?code=AB");
    assert TrimEnd(target) == "/callback?code=AB";
    var pairs := [Pair("code", "AB")];
    assert pairs[1..] == [];
    assert "code" + "=" + "AB" == "code=AB";
    assert Pieces(pairs) == ["code=AB"];
    assert "/callback" + "?" + "code=AB" == "/callback?code=AB";
    CodeOfEncodedTarget("/callback", pairs, Accepts, Verbatim);
  }

  /** The example request lines, taken apart into verb, target and version. */
  lemma ExampleLineShapes(line: string)
    ensures line == "GET /callback?code=ABC123&state=XYZ HTTP/1.1\r\n" ==>
      line == "GET" + " " + "/callback?code=ABC123&state=XYZ" + " " + "HTTP/1.1" + "\r\n"
    ensures line == "GET /callback?state=XYZ HTTP/1.1\r\n" ==>
      line == "GET" + " " + "/callback?state=XYZ" + " " + "HTTP/1.1" + "\r\n"
  {
  }

  lemma ExampleRequestLine(line: string, target: string)
    requires target == "/callback?code=ABC123&state=XYZ" || target == "/callback?state=XYZ"
    requires line == "GET" + " " + target + " " + "HTTP/1.1" + "\r\n"
    ensures CodeOfRequestLine(line, Accepts, Verbatim) == CodeOfTarget(target, Accepts, Verbatim)
  {
    ExampleWords();
    RequestLineTarget("GET", target, "HTTP/1.1", Accepts, Verbatim);
  }

  /** The redirect the authorization server sends back yields its code. */
  lemma CallbackWithCode(line: string)
    requires line == "GET /callback?code=ABC123&state=XYZ HTTP/1.1\r\n"
    ensures CodeOfRequestLine(line, Accepts, Verbatim) == Ok("ABC123")
  {
    ExampleLineShapes(line);
    ExampleRequestLine(line, "/callback?code=ABC123&state=XYZ");
    ExampleTargets();
  }

  /** A redirect without a `code` pair is rejected with `NoCode`. */
  lemma CallbackWithoutCode(line: string)
    requires line == "GET /callback?state=XYZ HTTP/1.1\r\n"
    ensures CodeOfRequestLine(line, Accepts, Verbatim) == Err(NoCode)
  {
    ExampleLineShapes(line);
    ExampleRequestLine(line, "/callback?state=XYZ");
    ExampleTargets();
  }
}
