/** The read-only guard on ERP queries: the block-comment pass, normalisation, and the deny list
    (backend/sql_server_connector.py). Text is ASCII. */
module SqlGuard {

  // ---------------------------------------------------------------- characters

  predicate IsWordChar(c: char) {
    'a' <= c <= 'z' || 'A' <= c <= 'Z' || '0' <= c <= '9' || c == '_'
  }

  /** Whitespace for Python's `\s` and `strip` within ASCII. */
  predicate IsSpace(c: char) {
    c == ' ' || '\t' <= c <= '\r' || 28 as char <= c <= 31 as char
  }

  function UpperChar(c: char): char {
    if 'a' <= c <= 'z' then c - 32 as char else c
  }

  function Upper(s: string): (r: string)
    ensures |r| == |s| && forall i | 0 <= i < |s| :: r[i] == UpperChar(s[i])
  {
    if s == "" then "" else [UpperChar(s[0])] + Upper(s[1..])
  }

  predicate AllWord(s: string) {
    forall i | 0 <= i < |s| :: IsWordChar(s[i])
  }

  // ---------------------------------------------------------------- words and word search

  /** The length of the run of word characters at the start. */
  function RunLength(s: string): (n: nat)
    ensures n <= |s| && AllWord(s[..n]) && (n < |s| ==> !IsWordChar(s[n]))
  {
    if s == "" || !IsWordChar(s[0]) then 0
    else
      assert forall i | 0 < i < 1 + RunLength(s[1..]) :: s[i] == s[1..][i - 1];
      1 + RunLength(s[1..])
  }

  /** The maximal runs of word characters, in order. */
  function Words(s: string): seq<string> {
    if s == "" then []
    else if !IsWordChar(s[0]) then Words(s[1..])
    else
      var n := RunLength(s);
      [s[..n]] + Words(s[n..])
  }

  predicate WordAt(s: string, p: int) {
    0 <= p < |s| && IsWordChar(s[p])
  }

  /** The regular expression `\b` at position p. */
  predicate Boundary(s: string, p: int) {
    WordAt(s, p - 1) != WordAt(s, p)
  }

  predicate MatchesAt(s: string, token: string, p: int) {
    0 <= p <= |s| - |token| && s[p..p + |token|] == token && Boundary(s, p) && Boundary(s, p + |token|)
  }

  /** `_contains_disallowed_token`: `re.search` of the token between word boundaries. */
  predicate Found(s: string, token: string) {
    exists p | 0 <= p <= |s| - |token| :: MatchesAt(s, token, p)
  }

  predicate IsWord(token: string) {
    token != "" && AllWord(token)
  }

  /** Dropping leading text that does not split a word only shifts the matches. */
  lemma MatchesShift(s: string, token: string, n: nat, p: int)
    requires n <= |s| && (n < p || (n == p && !WordAt(s, n - 1)))
    ensures MatchesAt(s, token, p) <==> MatchesAt(s[n..], token, p - n)
  {
    if 0 <= p <= |s| - |token| {
      assert s[p..p + |token|] == s[n..][p - n..p - n + |token|];
    }
  }

  lemma MatchIsAllWord(s: string, token: string, p: int)
    requires IsWord(token)
    ensures MatchesAt(s, token, p) ==> forall i | p <= i < p + |token| :: WordAt(s, i)
  {
    if MatchesAt(s, token, p) {
      forall i | p <= i < p + |token| ensures WordAt(s, i) {
        assert s[i] == s[p..p + |token|][i - p];
      }
    }
  }

  lemma RunIsAllWord(s: string)
    ensures forall i | 0 <= i < RunLength(s) :: WordAt(s, i)
    ensures !WordAt(s, RunLength(s))
  {
    var n := RunLength(s);
    forall i | 0 <= i < n ensures WordAt(s, i) {
      assert s[i] == s[..n][i];
    }
  }

  /** A match that starts at a word's first character is that whole word. */
  lemma MatchAtRun(s: string, token: string)
    requires IsWord(token) && s != "" && IsWordChar(s[0])
    ensures MatchesAt(s, token, 0) <==> token == s[..RunLength(s)]
  {
    var n := RunLength(s);
    RunIsAllWord(s);
    MatchIsAllWord(s, token, 0);
    if MatchesAt(s, token, 0) {
      assert |token| <= n;
      assert WordAt(s, |token| - 1) && !WordAt(s, |token|);
      assert |token| == n;
    }
  }

  /** No match starts inside a run of word characters, or just behind one. */
  lemma NoMatchInside(s: string, token: string, p: int)
    requires IsWord(token) && 0 < p <= RunLength(s)
    ensures !MatchesAt(s, token, p)
  {
    RunIsAllWord(s);
    MatchIsAllWord(s, token, p);
    assert WordAt(s, p - 1);
  }

  lemma FoundShift(s: string, token: string, n: nat)
    requires 0 < n <= |s|
    requires forall p | 0 < p < n :: !MatchesAt(s, token, p)
    requires forall p | n <= p :: MatchesAt(s, token, p) <==> MatchesAt(s[n..], token, p - n)
    ensures Found(s, token) <==> MatchesAt(s, token, 0) || Found(s[n..], token)
  {
    if Found(s[n..], token) {
      var q :| 0 <= q <= |s[n..]| - |token| && MatchesAt(s[n..], token, q);
      assert MatchesAt(s[n..], token, (q + n) - n);
      assert MatchesAt(s, token, q + n);
    }
  }

  /** A deny-listed word is found between word boundaries exactly when it is one of the maximal word
      runs. */
  lemma {:induction false} FoundIffWord(s: string, token: string)
    requires IsWord(token)
    ensures Found(s, token) <==> token in Words(s)
    decreases |s|
  {
    if s != "" {
      var n := if IsWordChar(s[0]) then RunLength(s) else 1;
      var rest := s[n..];
      FoundIffWord(rest, token);
      RunIsAllWord(s);
      MatchIsAllWord(s, token, 0);
      MatchIsAllWord(rest, token, 0);
      forall p | 0 < p < n ensures !MatchesAt(s, token, p) {
        NoMatchInside(s, token, p);
      }
      forall p | n <= p ensures MatchesAt(s, token, p) <==> MatchesAt(rest, token, p - n) {
        if n < p || !WordAt(s, n - 1) {
          MatchesShift(s, token, n, p);
        } else {
          NoMatchInside(s, token, p);
        }
      }
      FoundShift(s, token, n);
      if IsWordChar(s[0]) {
        MatchAtRun(s, token);
        assert Words(s) == [s[..n]] + Words(rest);
      }
    }
  }

  // ---------------------------------------------------------------- words of a concatenation

  /** A word in front of text that does not continue it. */
  lemma {:induction false} RunOfConcat(w: string, rest: string)
    requires AllWord(w) && (rest == "" || !IsWordChar(rest[0]))
    ensures RunLength(w + rest) == |w|
  {
    if w == "" {
      assert w + rest == rest;
    } else {
      assert (w + rest)[1..] == w[1..] + rest;
      RunOfConcat(w[1..], rest);
    }
  }

  lemma WordsOfConcat(w: string, rest: string)
    requires IsWord(w) && (rest == "" || !IsWordChar(rest[0]))
    ensures Words(w + rest) == [w] + Words(rest)
  {
    RunOfConcat(w, rest);
    assert (w + rest)[..|w|] == w && (w + rest)[|w|..] == rest;
  }

  // ---------------------------------------------------------------- normalisation

  /** `re.sub(r"\s+", " ", s)`; `inSpace` says that the run so far has been replaced already. */
  function Collapse(s: string, inSpace: bool): string {
    if s == "" then ""
    else if IsSpace(s[0]) then (if inSpace then "" else " ") + Collapse(s[1..], true)
    else [s[0]] + Collapse(s[1..], false)
  }

  function TrimLeft(s: string): string {
    if s != "" && IsSpace(s[0]) then TrimLeft(s[1..]) else s
  }

  function TrimRight(s: string): string {
    if s != "" && IsSpace(s[|s| - 1]) then TrimRight(s[..|s| - 1]) else s
  }

  /** The normalised query: whitespace collapsed, stripped, upper-cased. */
  function Normalized(s: string): string {
    Upper(TrimRight(TrimLeft(Collapse(s, false))))
  }

  function UpperAll(words: seq<string>): seq<string> {
    if words == [] then [] else [Upper(words[0])] + UpperAll(words[1..])
  }

  /** A word passes through the collapse unchanged. */
  lemma {:induction false} CollapseWord(w: string, rest: string, inSpace: bool)
    requires IsWord(w)
    ensures Collapse(w + rest, inSpace) == w + Collapse(rest, false)
  {
    assert (w + rest)[1..] == w[1..] + rest;
    if |w| > 1 {
      CollapseWord(w[1..], rest, false);
      assert w == [w[0]] + w[1..];
    } else {
      assert w[1..] + rest == rest;
    }
  }

  lemma {:induction false} CollapseKeepsWords(s: string, inSpace: bool)
    ensures Words(Collapse(s, inSpace)) == Words(s)
    decreases |s|
  {
    if s == "" {
    } else if IsSpace(s[0]) {
      CollapseKeepsWords(s[1..], true);
      var rest := Collapse(s[1..], true);
      assert Collapse(s, inSpace) == (if inSpace then "" else " ") + rest;
      assert "" + rest == rest && (" " + rest)[1..] == rest;
    } else if !IsWordChar(s[0]) {
      CollapseKeepsWords(s[1..], false);
      assert Collapse(s, inSpace)[1..] == Collapse(s[1..], false);
    } else {
      var n := RunLength(s);
      var w, rest := s[..n], s[n..];
      assert s == w + rest;
      CollapseWord(w, rest, inSpace);
      CollapseKeepsWords(rest, false);
      WordsOfConcat(w, Collapse(rest, false));
    }
  }

  lemma {:induction false} TrimLeftKeepsWords(s: string)
    ensures Words(TrimLeft(s)) == Words(s)
  {
    if s != "" && IsSpace(s[0]) {
      TrimLeftKeepsWords(s[1..]);
    }
  }

  lemma {:induction false} DropLastKeepsWords(s: string, c: char)
    requires !IsWordChar(c)
    ensures Words(s + [c]) == Words(s)
    decreases |s|
  {
    if s == "" {
      assert (s + [c])[1..] == "";
    } else if !IsWordChar(s[0]) {
      assert (s + [c])[1..] == s[1..] + [c];
      DropLastKeepsWords(s[1..], c);
    } else {
      var n := RunLength(s);
      var w, rest := s[..n], s[n..];
      assert s + [c] == w + (rest + [c]);
      WordsOfConcat(w, rest + [c]);
      DropLastKeepsWords(rest, c);
    }
  }

  lemma {:induction false} TrimRightKeepsWords(s: string)
    ensures Words(TrimRight(s)) == Words(s)
  {
    if s != "" && IsSpace(s[|s| - 1]) {
      var init := s[..|s| - 1];
      TrimRightKeepsWords(init);
      assert s == init + [s[|s| - 1]];
      DropLastKeepsWords(init, s[|s| - 1]);
    }
  }

  lemma UpperCharKeepsClass(c: char)
    ensures IsWordChar(UpperChar(c)) == IsWordChar(c)
  {
  }

  lemma {:induction false} UpperRun(s: string)
    ensures RunLength(Upper(s)) == RunLength(s)
  {
    if s != "" {
      UpperCharKeepsClass(s[0]);
      UpperRun(s[1..]);
      assert Upper(s)[1..] == Upper(s[1..]);
    }
  }

  lemma {:induction false} UpperSlices(s: string, n: nat)
    requires n <= |s|
    ensures Upper(s)[..n] == Upper(s[..n]) && Upper(s)[n..] == Upper(s[n..])
  {
  }

  lemma {:induction false} UpperKeepsWords(s: string)
    ensures Words(Upper(s)) == UpperAll(Words(s))
    decreases |s|
  {
    if s != "" {
      UpperCharKeepsClass(s[0]);
      if !IsWordChar(s[0]) {
        UpperSlices(s, 1);
        UpperKeepsWords(s[1..]);
      } else {
        var n := RunLength(s);
        UpperRun(s);
        UpperSlices(s, n);
        UpperKeepsWords(s[n..]);
        assert Words(s) == [s[..n]] + Words(s[n..]);
        assert Words(s)[1..] == Words(s[n..]);
      }
    }
  }

  /** Normalisation keeps the list of words, up to case. */
  lemma NormalizationKeepsWords(s: string)
    ensures Words(Normalized(s)) == UpperAll(Words(s))
  {
    var c := Collapse(s, false);
    CollapseKeepsWords(s, false);
    TrimLeftKeepsWords(c);
    TrimRightKeepsWords(TrimLeft(c));
    UpperKeepsWords(TrimRight(TrimLeft(c)));
  }

  // ---------------------------------------------------------------- the guard

  const DENIED: seq<string> := [
    "GO", "INSERT", "UPDATE", "DELETE", "MERGE", "DROP", "ALTER", "TRUNCATE", "CREATE",
    "EXEC", "EXECUTE", "GRANT", "REVOKE", "INTO"]

  datatype Verdict = Allowed | Empty | NotSelect | MultiStatement | DeniedToken

  /** `_assert_read_only_query` after sanitising, with the tokens of its three deny lists in order. */
  function Guard(sanitized: string, denied: seq<string>): Verdict {
    var normalized := Normalized(sanitized);
    if normalized == "" then Empty
    else if !("SELECT " <= normalized || "WITH " <= normalized) then NotSelect
    else if ';' in sanitized then MultiStatement
    else if exists k | 0 <= k < |denied| :: Found(normalized, denied[k]) then DeniedToken
    else Allowed
  }

  lemma {:induction false} InUpperAll(words: seq<string>, token: string)
    ensures token in UpperAll(words) <==> exists k | 0 <= k < |words| :: Upper(words[k]) == token
  {
    if words != [] {
      InUpperAll(words[1..], token);
      if Upper(words[0]) == token {
        assert UpperAll(words)[0] == token;
      }
      forall k | 0 <= k < |words| && Upper(words[k]) == token ensures token in UpperAll(words) {
        if k > 0 {
          assert words[1..][k - 1] == words[k];
        }
      }
      if token in UpperAll(words[1..]) {
        var k :| 0 <= k < |words[1..]| && Upper(words[1..][k]) == token;
        assert words[k + 1] == words[1..][k];
      }
    }
  }

  /** The query holds one of the denied words, in any case and however it is spaced. */
  ghost predicate HoldsDenied(sanitized: string, denied: seq<string>) {
    exists k, w | 0 <= k < |denied| && 0 <= w < |Words(sanitized)| :: Upper(Words(sanitized)[w]) == denied[k]
  }

  /** What the guard lets through, said of the text it was given: no semicolon, a normal form that
      starts as a query, and no word that is denied in any case. */
  lemma GuardExact(sanitized: string, denied: seq<string>)
    requires forall k | 0 <= k < |denied| :: IsWord(denied[k])
    ensures Guard(sanitized, denied) == Allowed
            <==> && ("SELECT " <= Normalized(sanitized) || "WITH " <= Normalized(sanitized))
                 && ';' !in sanitized
                 && !HoldsDenied(sanitized, denied)
  {
    var normalized := Normalized(sanitized);
    NormalizationKeepsWords(sanitized);
    forall k | 0 <= k < |denied|
      ensures Found(normalized, denied[k])
              <==> exists w | 0 <= w < |Words(sanitized)| :: Upper(Words(sanitized)[w]) == denied[k]
    {
      FoundIffWord(normalized, denied[k]);
      InUpperAll(Words(sanitized), denied[k]);
    }
  }

  lemma DeniedAreWords()
    ensures forall k | 0 <= k < |DENIED| :: IsWord(DENIED[k])
  {
  }

  lemma FirstWord(s: string, w: string)
    requires IsWord(w) && w + " " <= s
    ensures Words(s) != [] && Words(s)[0] == w
  {
    var rest := s[|w|..];
    assert s[..|w|] == (w + " ")[..|w|] == w;
    assert s == w + rest;
    assert rest[0] == s[|w|] == (w + " ")[|w|] == ' ';
    WordsOfConcat(w, rest);
  }

  /** A normal form that starts as a query begins with one of the two words. */
  lemma QueryStartsWithWord(sanitized: string, w: string)
    requires IsWord(w) && w + " " <= Normalized(sanitized)
    ensures Words(sanitized) != [] && Upper(Words(sanitized)[0]) == w
  {
    NormalizationKeepsWords(sanitized);
    FirstWord(Normalized(sanitized), w);
  }

  /** Whatever the guard allows starts with the word SELECT or WITH in some case, has no semicolon,
      and holds none of the denied words in any case. */
  lemma AllowedQueriesAreReads(sanitized: string, denied: seq<string>)
    requires forall k | 0 <= k < |denied| :: IsWord(denied[k])
    requires Guard(sanitized, denied) == Allowed
    ensures Words(sanitized) != [] && (Upper(Words(sanitized)[0]) == "SELECT" || Upper(Words(sanitized)[0]) == "WITH")
    ensures ';' !in sanitized
    ensures forall w | 0 <= w < |Words(sanitized)| :: Upper(Words(sanitized)[w]) !in denied
  {
    GuardExact(sanitized, denied);
    assert "SELECT" + " " == "SELECT " && "WITH" + " " == "WITH ";
    if "SELECT " <= Normalized(sanitized) {
      QueryStartsWithWord(sanitized, "SELECT");
    } else {
      QueryStartsWithWord(sanitized, "WITH");
    }
  }

  lemma DeniedExactly(word: string)
    ensures word in DENIED
            <==> word in {"GO", "INSERT", "UPDATE", "DELETE", "MERGE", "DROP", "ALTER", "TRUNCATE", "CREATE",
                          "EXEC", "EXECUTE", "GRANT", "REVOKE", "INTO"}
  {
  }

  /** What each refusal means. */
  lemma RefusalsMean(sanitized: string, denied: seq<string>)
    requires forall k | 0 <= k < |denied| :: IsWord(denied[k])
    ensures var v := Guard(sanitized, denied);
            && (v == Empty ==> Words(sanitized) == [])
            && (v == NotSelect ==> !("SELECT " <= Normalized(sanitized)) && !("WITH " <= Normalized(sanitized)))
            && (v == MultiStatement ==> ';' in sanitized)
            && (v == DeniedToken ==> HoldsDenied(sanitized, denied))
  {
    NormalizationKeepsWords(sanitized);
    GuardExact(sanitized, denied);
  }

  /** No word of the text is one of the fourteen, in any case. */
  predicate HoldsNone(sanitized: string) {
    forall w | 0 <= w < |Words(sanitized)| ::
      Upper(Words(sanitized)[w]) !in {"GO", "INSERT", "UPDATE", "DELETE", "MERGE", "DROP", "ALTER", "TRUNCATE",
                                      "CREATE", "EXEC", "EXECUTE", "GRANT", "REVOKE", "INTO"}
  }

  lemma HoldsNoneIff(sanitized: string)
    ensures HoldsNone(sanitized) <==> !HoldsDenied(sanitized, DENIED)
  {
    forall w | 0 <= w < |Words(sanitized)| {
      DeniedExactly(Upper(Words(sanitized)[w]));
    }
    assert HoldsDenied(sanitized, DENIED)
           <==> exists w | 0 <= w < |Words(sanitized)| :: Upper(Words(sanitized)[w]) in DENIED;
  }

  /** The guard with its own list of words: exactly the texts that start as a query and hold no
      semicolon and none of those words, and so what it allows starts with SELECT or WITH. */
  lemma ConnectorGuardExact(sanitized: string)
    ensures Guard(sanitized, DENIED) == Allowed
            <==> && ("SELECT " <= Normalized(sanitized) || "WITH " <= Normalized(sanitized))
                 && ';' !in sanitized
                 && HoldsNone(sanitized)
    ensures Guard(sanitized, DENIED) == Allowed ==>
              Words(sanitized) != [] && (Upper(Words(sanitized)[0]) == "SELECT" || Upper(Words(sanitized)[0]) == "WITH")
  {
    DeniedAreWords();
    GuardExact(sanitized, DENIED);
    HoldsNoneIff(sanitized);
    if Guard(sanitized, DENIED) == Allowed {
      AllowedQueriesAreReads(sanitized, DENIED);
    }
  }

  // ---------------------------------------------------------------- the block-comment pass

  predicate OpensAt(s: string, i: int) {
    0 <= i && i + 2 <= |s| && s[i] == '/' && s[i + 1] == '*'
  }

  predicate ClosesAt(s: string, j: int) {
    0 <= j && j + 2 <= |s| && s[j] == '*' && s[j + 1] == '/'
  }

  /** The first opener at or after i, |s| if none. */
  function FirstOpen(s: string, i: nat): (r: nat)
    requires i <= |s|
    ensures i <= r <= |s|
    ensures r < |s| ==> OpensAt(s, r)
    ensures forall k | i <= k < r :: !OpensAt(s, k)
    decreases |s| - i
  {
    if i == |s| || OpensAt(s, i) then i else FirstOpen(s, i + 1)
  }

  function FirstClose(s: string, j: nat): (r: nat)
    requires j <= |s|
    ensures j <= r <= |s|
    ensures r < |s| ==> ClosesAt(s, r)
    ensures forall k | j <= k < r :: !ClosesAt(s, k)
    decreases |s| - j
  {
    if j == |s| || ClosesAt(s, j) then j else FirstClose(s, j + 1)
  }

  // The substitution for block comments: from left to right, each shortest one becomes one space;
  // an opener without a closer stays.
  function StripBlocks(s: string): string
    decreases |s|
  {
    var i := FirstOpen(s, 0);
    if i == |s| then s
    else
      var j := FirstClose(s, i + 2);
      if j == |s| then s else s[..i] + " " + StripBlocks(s[j + 2..])
  }

  /** Some opener has a closer after it. */
  ghost predicate HasBlock(s: string) {
    exists i, j | OpensAt(s, i) && i + 2 <= j :: ClosesAt(s, j)
  }

  lemma OpensInHead(head: string, tail: string, i: int)
    requires 0 <= i && i + 2 <= |head|
    ensures OpensAt(head + tail, i) <==> OpensAt(head, i)
  {
  }

  /** An opener behind a head without openers and a space lies in the tail, and so do its closers. */
  lemma PairsShift(head: string, tail: string, i: int, j: int)
    requires forall k :: !OpensAt(head, k)
    requires OpensAt(head + " " + tail, i) && i + 2 <= j && ClosesAt(head + " " + tail, j)
    ensures OpensAt(tail, i - |head| - 1) && ClosesAt(tail, j - |head| - 1)
  {
    var s := head + " " + tail;
    var n := |head|;
    assert s == head + (" " + tail);
    assert s[n] == ' ';
    if i + 2 <= n {
      OpensInHead(head, " " + tail, i);
    }
    assert i > n;
    assert s[i] == tail[i - n - 1] && s[i + 1] == tail[i - n];
    assert s[j] == tail[j - n - 1] && s[j + 1] == tail[j - n];
  }

  lemma NoBlockAcross(head: string, tail: string)
    requires (forall k :: !OpensAt(head, k)) && !HasBlock(tail)
    ensures !HasBlock(head + " " + tail)
  {
    var out := head + " " + tail;
    forall a, b | OpensAt(out, a) && a + 2 <= b ensures !ClosesAt(out, b) {
      if ClosesAt(out, b) {
        PairsShift(head, tail, a, b);
      }
    }
  }

  lemma NoBlockLeft(s: string)
    requires FirstOpen(s, 0) == |s| || FirstClose(s, FirstOpen(s, 0) + 2) == |s|
    ensures !HasBlock(s)
  {
    var i := FirstOpen(s, 0);
    forall a, b | OpensAt(s, a) && a + 2 <= b ensures !ClosesAt(s, b) {
      assert i <= a;
    }
  }

  lemma {:induction false} StripBlocksLeavesNone(s: string)
    ensures !HasBlock(StripBlocks(s))
    decreases |s|
  {
    var i := FirstOpen(s, 0);
    if i == |s| || FirstClose(s, i + 2) == |s| {
      NoBlockLeft(s);
    } else {
      var j := FirstClose(s, i + 2);
      StripBlocksLeavesNone(s[j + 2..]);
      forall k ensures !OpensAt(s[..i], k) {
        assert OpensAt(s[..i], k) ==> OpensAt(s, k);
      }
      NoBlockAcross(s[..i], StripBlocks(s[j + 2..]));
    }
  }

  /** After the pass no opener has a closer after it, and so a second pass changes nothing; the pass
      changes exactly the texts that hold such a pair. */
  lemma StripBlocksRemovesAll(s: string)
    ensures !HasBlock(StripBlocks(s))
    ensures StripBlocks(StripBlocks(s)) == StripBlocks(s)
    ensures StripBlocks(s) == s <==> !HasBlock(s)
  {
    StripBlocksLeavesNone(s);
    NoBlockStays(StripBlocks(s));
    if !HasBlock(s) {
      NoBlockStays(s);
    }
  }

  lemma NoBlockStays(s: string)
    requires !HasBlock(s)
    ensures StripBlocks(s) == s
  {
    var i := FirstOpen(s, 0);
    if i < |s| {
      var j := FirstClose(s, i + 2);
      assert j < |s| ==> OpensAt(s, i) && ClosesAt(s, j);
    }
  }
}
