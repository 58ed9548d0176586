/** Extracting the bearer token from the `Authorization` header
    (`get_token_auth_header`), with Python's whitespace `str.split()` and the
    case-insensitive comparison of the auth-scheme against "bearer". */
module TokenHeader {
  import opened PyValues
  import opened Errors

  /** Python's `str.isspace` for one character: the separators `str.split()` drops. */
  predicate IsSpace(c: char)
  {
    || ('\t' <= c <= '\r')
    || ('\U{1C}' <= c <= ' ')
    || c == '\U{85}' || c == '\U{A0}' || c == '\U{1680}'
    || ('\U{2000}' <= c <= '\U{200A}')
    || c == '\U{2028}' || c == '\U{2029}' || c == '\U{202F}' || c == '\U{205F}' || c == '\U{3000}'
  }

  predicate AllSpace(s: string)
  {
    forall i :: 0 <= i < |s| ==> IsSpace(s[i])
  }

  /** A part of a split header: non-empty, no whitespace. */
  predicate IsWord(w: string)
  {
    w != [] && forall i :: 0 <= i < |w| ==> !IsSpace(w[i])
  }

  predicate AllWords(ws: seq<string>)
  {
    forall i :: 0 <= i < |ws| ==> IsWord(ws[i])
  }

  /** The length of the longest whitespace-free prefix of `s`. */
  function WordLength(s: string): (n: nat)
    ensures n <= |s|
    ensures forall i :: 0 <= i < n ==> !IsSpace(s[i])
    ensures n < |s| ==> IsSpace(s[n])
  {
    if s == [] || IsSpace(s[0]) then 0 else 1 + WordLength(s[1..])
  }

  /** `s.split()`: the maximal runs of non-whitespace characters, in order. */
  function Split(s: string): (ws: seq<string>)
    ensures AllWords(ws)
    ensures ws == [] <==> AllSpace(s)
    decreases |s|
  {
    if s == [] then []
    else if IsSpace(s[0]) then
      assert AllSpace(s) <==> AllSpace(s[1..]) by {
        assert forall i :: 0 < i < |s| ==> s[i] == s[1..][i - 1];
      }
      Split(s[1..])
    else
      var n := WordLength(s);
      [s[..n]] + Split(s[n..])
  }

  /** A string laid out as `gaps[0] + ws[0] + gaps[1] + ... + ws[k-1] + gaps[k]`. */
  function Layout(ws: seq<string>, gaps: seq<string>): string
    requires |gaps| == |ws| + 1
    decreases ws
  {
    if ws == [] then gaps[0] else gaps[0] + ws[0] + Layout(ws[1..], gaps[1..])
  }

  /** The gaps of a layout are whitespace, and those between two words are not empty. */
  predicate ValidGaps(ws: seq<string>, gaps: seq<string>)
  {
    && |gaps| == |ws| + 1
    && (forall i :: 0 <= i < |gaps| ==> AllSpace(gaps[i]))
    && (forall i :: 0 < i < |ws| ==> gaps[i] != [])
  }

  /** The whitespace before each part of `Split(s)`, and the trailing whitespace. */
  function Gaps(s: string): (gs: seq<string>)
    ensures |gs| == |Split(s)| + 1
    decreases |s|
  {
    if s == [] then [[]]
    else if IsSpace(s[0]) then
      var g := Gaps(s[1..]);
      [[s[0]] + g[0]] + g[1..]
    else
      [[]] + Gaps(s[WordLength(s)..])
  }

  lemma {:induction false} SplitAfterSpaces(sp: string, t: string)
    requires AllSpace(sp)
    ensures Split(sp + t) == Split(t)
    decreases |sp|
  {
    if sp != [] {
      assert (sp + t)[0] == sp[0];
      assert (sp + t)[1..] == sp[1..] + t;
      assert AllSpace(sp[1..]) by {
        assert forall i :: 0 <= i < |sp| - 1 ==> sp[1..][i] == sp[i + 1];
      }
      var u := sp + t;
      assert u != [] && IsSpace(u[0]);
      assert Split(u) == Split(u[1..]);
      SplitAfterSpaces(sp[1..], t);
    } else {
      assert sp + t == t;
    }
  }

  lemma SplitAfterWord(w: string, t: string)
    requires IsWord(w)
    requires t == [] || IsSpace(t[0])
    ensures Split(w + t) == [w] + Split(t)
  {
    var s := w + t;
    var n := WordLength(s);
    assert forall i :: 0 <= i < |w| ==> s[i] == w[i];
    assert |w| < |s| ==> s[|w|] == t[0];
    assert n == |w|;
    assert s[..n] == w && s[n..] == t;
  }

  lemma ValidGapsTail(ws: seq<string>, gaps: seq<string>)
    requires ws != [] && ValidGaps(ws, gaps)
    ensures ValidGaps(ws[1..], gaps[1..])
  {
    assert forall i :: 0 <= i < |gaps| - 1 ==> gaps[1..][i] == gaps[i + 1];
  }

  /** A layout starts with its first gap. */
  lemma LayoutStart(ws: seq<string>, gaps: seq<string>)
    requires |gaps| == |ws| + 1 && gaps[0] != []
    ensures Layout(ws, gaps) != [] && Layout(ws, gaps)[0] == gaps[0][0]
  {
  }

  /** Splitting a layout gives back its words: `Split` is a left inverse of `Layout`. */
  lemma {:induction false} SplitLayout(ws: seq<string>, gaps: seq<string>)
    requires AllWords(ws) && ValidGaps(ws, gaps)
    ensures Split(Layout(ws, gaps)) == ws
    decreases ws
  {
    if ws == [] {
      assert AllSpace(gaps[0]);
    } else {
      var rest := Layout(ws[1..], gaps[1..]);
      ValidGapsTail(ws, gaps);
      SplitLayout(ws[1..], gaps[1..]);
      assert Layout(ws, gaps) == gaps[0] + (ws[0] + rest);
      SplitAfterSpaces(gaps[0], ws[0] + rest);
      assert rest == [] || IsSpace(rest[0]) by {
        if |ws| > 1 {
          LayoutStart(ws[1..], gaps[1..]);
          assert AllSpace(gaps[1]);
        } else {
          assert rest == gaps[1] && AllSpace(gaps[1]);
        }
      }
      assert IsWord(ws[0]);
      SplitAfterWord(ws[0], rest);
    }
  }

  /** Putting whitespace in front of a layout widens its first gap. */
  lemma LayoutAfterSpace(c: char, ws: seq<string>, g: seq<string>)
    requires IsSpace(c) && ValidGaps(ws, g)
    ensures ValidGaps(ws, [[c] + g[0]] + g[1..])
    ensures Layout(ws, [[c] + g[0]] + g[1..]) == [c] + Layout(ws, g)
  {
    var g' := [[c] + g[0]] + g[1..];
    assert g'[1..] == g[1..];
    assert forall i :: 0 < i < |g| ==> g'[i] == g[i];
    assert AllSpace(g'[0]);
  }

  /** Putting a word in front of a layout that is empty or starts with
      whitespace adds the word with an empty first gap. */
  lemma LayoutAfterWord(w: string, rest: string, ws: seq<string>, g: seq<string>)
    requires IsWord(w) && AllWords(ws) && ValidGaps(ws, g)
    requires Layout(ws, g) == rest && (rest == [] || IsSpace(rest[0]))
    ensures ValidGaps([w] + ws, [[]] + g)
    ensures Layout([w] + ws, [[]] + g) == w + rest
  {
    var ws', g' := [w] + ws, [[]] + g;
    assert ws'[1..] == ws && g'[1..] == g;
    assert forall i :: 0 < i < |g'| ==> g'[i] == g[i - 1];
  }

  /** Split and Gaps of a string that starts with a word. */
  lemma SplitGapsAfterWord(s: string)
    requires s != [] && !IsSpace(s[0])
    ensures Split(s) == [s[..WordLength(s)]] + Split(s[WordLength(s)..])
    ensures Gaps(s) == [[]] + Gaps(s[WordLength(s)..])
    ensures IsWord(s[..WordLength(s)])
    ensures s[WordLength(s)..] == [] || IsSpace(s[WordLength(s)..][0])
  {
    var n := WordLength(s);
    assert forall i :: 0 <= i < n ==> s[..n][i] == s[i];
  }

  /** The induction step of LayoutOfSplit for a string that starts with whitespace. */
  lemma LayoutOfSplitAfterSpace(s: string)
    requires s != [] && IsSpace(s[0])
    requires ValidGaps(Split(s[1..]), Gaps(s[1..])) && Layout(Split(s[1..]), Gaps(s[1..])) == s[1..]
    ensures ValidGaps(Split(s), Gaps(s)) && Layout(Split(s), Gaps(s)) == s
  {
    var g := Gaps(s[1..]);
    assert Gaps(s) == [[s[0]] + g[0]] + g[1..];
    LayoutAfterSpace(s[0], Split(s[1..]), g);
    assert [s[0]] + s[1..] == s;
  }

  /** The induction step of LayoutOfSplit for a string that starts with a
      word `w` followed by `rest`, whose split and gaps are `ws` and `g`. */
  lemma LayoutOfSplitAfterWord(s: string, w: string, rest: string, ws: seq<string>, g: seq<string>,
                               ws': seq<string>, g': seq<string>)
    requires s == w + rest && IsWord(w) && (rest == [] || IsSpace(rest[0]))
    requires AllWords(ws) && ValidGaps(ws, g) && Layout(ws, g) == rest
    requires ws' == [w] + ws && g' == [[]] + g
    ensures ValidGaps(ws', g') && Layout(ws', g') == s
  {
    LayoutAfterWord(w, rest, ws, g);
  }

  /** Every string is the layout of its split with the gaps between the parts. */
  lemma {:induction false} LayoutOfSplit(s: string)
    ensures ValidGaps(Split(s), Gaps(s))
    ensures Layout(Split(s), Gaps(s)) == s
    decreases |s|
  {
    if s == [] {
    } else if IsSpace(s[0]) {
      assert ValidGaps(Split(s), Gaps(s)) && Layout(Split(s), Gaps(s)) == s by {
        LayoutOfSplit(s[1..]);
        LayoutOfSplitAfterSpace(s);
      }
    } else {
      var n := WordLength(s);
      assert ValidGaps(Split(s), Gaps(s)) && Layout(Split(s), Gaps(s)) == s by {
        LayoutOfSplit(s[n..]);
        SplitGapsAfterWord(s);
        LayoutOfSplitAfterWord(s, s[..n], s[n..], Split(s[n..]), Gaps(s[n..]), Split(s), Gaps(s));
      }
    }
  }

  /** Python's `str.lower()` as far as the comparison with "bearer" can see:
      no character outside ASCII lower-cases to an ASCII letter of "bearer". */
  function Lower(s: string): string
  {
    seq(|s|, i requires 0 <= i < |s| => if 'A' <= s[i] <= 'Z' then (s[i] as int + 32) as char else s[i])
  }

  /** `get_token_auth_header`, given the `Authorization` header if any. */
  function GetTokenAuthHeader(auth: Option<string>): (r: Result<string>)
    ensures r == Fail(HeaderMissing) <==> auth.None? || auth.value == ""
    ensures r == Err(Crash(IndexError)) <==> auth.Some? && auth.value != "" && AllSpace(auth.value)
    ensures r.Err? && r.raised.Crash? ==> r == Err(Crash(IndexError))
    ensures r.Ok? ==> IsWord(r.value)
  {
    if auth.None? || auth.value == "" then
      Fail(HeaderMissing)
    else
      var parts := Split(auth.value);
      if parts == [] then
        Err(Crash(IndexError))
      else if Lower(parts[0]) != "bearer" then
        Fail(SchemeNotBearer)
      else if |parts| == 1 then
        Fail(TokenNotFound)
      else if |parts| > 2 then
        Fail(NotBearerToken)
      else
        Ok(parts[1])
  }

  /** The auth-scheme of a split header: "bearer" in any ASCII case. */
  predicate IsBearer(scheme: string)
  {
    Lower(scheme) == "bearer"
  }

  /** Parsing a header laid out as the words `ws`: the scheme is judged first,
      whatever the number of parts, then one part is "Token not found.", more
      than two is "must be bearer token.", and two give back the second part. */
  lemma ParseLayout(ws: seq<string>, gaps: seq<string>)
    requires ws != [] && AllWords(ws) && ValidGaps(ws, gaps)
    ensures !IsBearer(ws[0]) ==> GetTokenAuthHeader(Some(Layout(ws, gaps))) == Fail(SchemeNotBearer)
    ensures IsBearer(ws[0]) && |ws| == 1 ==> GetTokenAuthHeader(Some(Layout(ws, gaps))) == Fail(TokenNotFound)
    ensures IsBearer(ws[0]) && |ws| > 2 ==> GetTokenAuthHeader(Some(Layout(ws, gaps))) == Fail(NotBearerToken)
    ensures IsBearer(ws[0]) && |ws| == 2 ==> GetTokenAuthHeader(Some(Layout(ws, gaps))) == Ok(ws[1])
  {
    SplitLayout(ws, gaps);
    assert Layout(ws, gaps) != "" by {
      assert !AllSpace(Layout(ws, gaps));
    }
  }

  /** Conversely, a header is accepted only when it is laid out as exactly a
      "bearer" scheme and the returned token, with whitespace around them. */
  lemma AcceptedHeader(auth: Option<string>)
    requires GetTokenAuthHeader(auth).Ok?
    ensures auth.Some?
    ensures var ws := [Split(auth.value)[0], GetTokenAuthHeader(auth).value];
      && IsBearer(ws[0]) && AllWords(ws) && ValidGaps(ws, Gaps(auth.value))
      && auth.value == Layout(ws, Gaps(auth.value))
  {
    LayoutOfSplit(auth.value);
    var parts := Split(auth.value);
    assert parts == [parts[0], parts[1]];
  }

  /** A scheme other than "Bearer" is reported even when the part count is also wrong. */
  lemma BasicSchemeReportedFirst()
    ensures GetTokenAuthHeader(Some("Basic a b c")) == Fail(SchemeNotBearer)
  {
    var ws, gaps := ["Basic", "a", "b", "c"], ["", " ", " ", " ", ""];
    assert Layout(ws[3..], gaps[3..]) == " c" by {
      assert Layout(ws[3..], gaps[3..]) == " " + "c" + Layout([], [""]);
    }
    assert Layout(ws[2..], gaps[2..]) == " b c" by {
      assert ws[2..][1..] == ws[3..] && gaps[2..][1..] == gaps[3..];
    }
    assert Layout(ws[1..], gaps[1..]) == " a b c" by {
      assert ws[1..][1..] == ws[2..] && gaps[1..][1..] == gaps[2..];
    }
    assert Layout(ws, gaps) == "Basic a b c";
    assert Lower("Basic") == "basic";
    ParseLayout(ws, gaps);
  }

  /** The usual header, the scheme in any case, one space and the token,
      gives back the token. */
  lemma BearerTokenAccepted(scheme: string, token: string)
    requires IsBearer(scheme) && IsWord(token)
    ensures GetTokenAuthHeader(Some(scheme + " " + token)) == Ok(token)
  {
    assert IsWord(scheme) by {
      forall i | 0 <= i < |scheme|
        ensures !IsSpace(scheme[i])
      {
        assert Lower(scheme)[i] == "bearer"[i];
      }
    }
    var gaps := ["", " ", ""];
    assert Layout([token], gaps[1..]) == " " + token by {
      assert Layout([token], gaps[1..]) == " " + token + Layout([], [""]);
    }
    assert Layout([scheme, token], gaps) == scheme + " " + token;
    ParseLayout([scheme, token], gaps);
  }
}
