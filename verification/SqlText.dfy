/** What the text passes before the ERP guard do to a query, said of its fields and its comments
    (backend/sql_server_connector.py). */
module SqlText {
  import opened SqlGuard

  // ---------------------------------------------------------------- characters

  /** Upper-casing takes the small letters to the capitals, 32 below them, and leaves the rest; whitespace
      is the ten ASCII characters Python counts as such. */
  lemma CharactersAre(c: char)
    ensures UpperChar(c) as int == c as int - if 97 <= c as int <= 122 then 32 else 0
    ensures IsSpace(c) <==> c as int in {9, 10, 11, 12, 13, 28, 29, 30, 31, 32}
    ensures IsWordChar(c) <==> c == '_' || 48 <= c as int <= 57 || 65 <= c as int <= 90 || 97 <= c as int <= 122
  {
  }

  // ---------------------------------------------------------------- whitespace

  predicate IsField(f: string) {
    f != "" && forall i | 0 <= i < |f| :: !IsSpace(f[i])
  }

  function FieldLength(s: string): (n: nat)
    ensures n <= |s| && (forall i | 0 <= i < n :: !IsSpace(s[i])) && (n < |s| ==> IsSpace(s[n]))
  {
    if s == "" || IsSpace(s[0]) then 0
    else
      assert forall i | 0 < i < 1 + FieldLength(s[1..]) :: s[i] == s[1..][i - 1];
      1 + FieldLength(s[1..])
  }

  /** The maximal runs without whitespace, as `str.split` gives them. */
  function Fields(s: string): (fs: seq<string>)
    ensures forall k | 0 <= k < |fs| :: IsField(fs[k])
    decreases |s|
  {
    if s == "" then []
    else if IsSpace(s[0]) then Fields(s[1..])
    else [s[..FieldLength(s)]] + Fields(s[FieldLength(s)..])
  }

  /** The fields with one blank between them. */
  function Joined(fs: seq<string>): string {
    if fs == [] then "" else if |fs| == 1 then fs[0] else fs[0] + " " + Joined(fs[1..])
  }

  lemma {:induction false} JoinedEnds(fs: seq<string>)
    requires fs != [] && forall k | 0 <= k < |fs| :: IsField(fs[k])
    ensures Joined(fs) != "" && !IsSpace(Joined(fs)[0]) && !IsSpace(Joined(fs)[|Joined(fs)| - 1])
  {
    if |fs| > 1 {
      JoinedEnds(fs[1..]);
    }
  }

  /** The fields joined, and a blank after them if the text ends in whitespace. */
  function Padded(s: string): string {
    Joined(Fields(s)) + if Fields(s) != [] && IsSpace(s[|s| - 1]) then " " else ""
  }

  lemma {:induction false} CollapseField(w: string, rest: string, inSpace: bool)
    requires IsField(w)
    ensures Collapse(w + rest, inSpace) == w + Collapse(rest, false)
  {
    assert (w + rest)[1..] == w[1..] + rest;
    if |w| > 1 {
      CollapseField(w[1..], rest, false);
      assert w == [w[0]] + w[1..];
    } else {
      assert w[1..] + rest == rest;
    }
  }

  lemma {:induction false} NoFieldsIsSpace(s: string)
    requires Fields(s) == [] && s != ""
    ensures IsSpace(s[|s| - 1])
    decreases |s|
  {
    if |s| > 1 {
      NoFieldsIsSpace(s[1..]);
    }
  }

  lemma {:induction false} CollapseIsPadded(s: string)
    ensures Collapse(s, true) == Padded(s)
    ensures Collapse(s, false) == (if s != "" && IsSpace(s[0]) then " " else "") + Padded(s)
    decreases |s|
  {
    if s != "" && IsSpace(s[0]) {
      CollapseIsPadded(s[1..]);
      assert Padded(s) == Padded(s[1..]);
    } else if s != "" {
      var w, rest := s[..FieldLength(s)], s[FieldLength(s)..];
      assert s == w + rest;
      CollapseField(w, rest, true);
      CollapseField(w, rest, false);
      CollapseIsPadded(rest);
      PaddedField(s);
    }
  }

  lemma PaddedField(s: string)
    requires s != "" && !IsSpace(s[0])
    ensures var (w, rest) := (s[..FieldLength(s)], s[FieldLength(s)..]);
            Padded(s) == w + if rest == "" then "" else " " + Padded(rest)
  {
    var w, rest := s[..FieldLength(s)], s[FieldLength(s)..];
    JoinedCons(w, Fields(rest));
    if rest != "" {
      assert s[|s| - 1] == rest[|rest| - 1];
      if Fields(rest) == [] {
        NoFieldsIsSpace(rest);
      }
      Regroup(w, Joined(Fields(rest)), if IsSpace(s[|s| - 1]) then " " else "");
    }
  }

  lemma Regroup(a: string, b: string, c: string)
    ensures (a + " " + b) + c == a + (" " + (b + c))
  {
  }

  lemma JoinedCons(w: string, fs: seq<string>)
    ensures Joined([w] + fs) == if fs == [] then w else w + " " + Joined(fs)
  {
    assert ([w] + fs)[1..] == fs;
  }

  lemma TrimLeftOne(s: string)
    requires s == "" || !IsSpace(s[0])
    ensures TrimLeft(s) == s && TrimLeft(" " + s) == s
  {
    assert (" " + s)[1..] == s;
  }

  lemma TrimRightOne(s: string)
    requires s == "" || !IsSpace(s[|s| - 1])
    ensures TrimRight(s) == s && TrimRight(s + " ") == s
  {
    assert (s + " ")[..|s|] == s;
  }

  lemma TrimsToJoined(s: string)
    ensures TrimRight(TrimLeft(Collapse(s, false))) == Joined(Fields(s))
  {
    CollapseIsPadded(s);
    if Fields(s) != [] {
      JoinedEnds(Fields(s));
    }
    TrimLeftOne(Padded(s));
    TrimRightOne(Joined(Fields(s)));
    assert "" + Padded(s) == Padded(s) && Joined(Fields(s)) + "" == Joined(Fields(s));
  }

  /** The normal form is the upper-cased fields with one blank between them, whatever whitespace stood
      around and between them. */
  lemma NormalizedIsFields(s: string)
    ensures Normalized(s) == Upper(Joined(Fields(s)))
  {
    TrimsToJoined(s);
  }

  lemma UpperConcat(a: string, b: string)
    ensures Upper(a + b) == Upper(a) + Upper(b)
  {
  }

  lemma {:induction false} UpperKeepsBlanks(s: string)
    ensures forall i | 0 <= i < |s| :: Upper(s)[i] == ' ' <==> s[i] == ' '
  {
  }

  lemma PrefixAt(a: string, s: string, i: nat)
    ensures a <= s && i < |a| ==> i < |s| && s[i] == a[i]
  {
  }

  lemma OneField(f: string, w: string)
    requires ' ' !in f
    ensures !(w + " " <= f)
  {
    PrefixAt(w + " ", f, |w|);
    assert (w + " ")[|w|] == ' ';
  }

  lemma FirstField(f: string, more: string, w: string)
    requires ' ' !in f && ' ' !in w
    ensures w + " " <= (f + " ") + more <==> f == w
  {
    var s := (f + " ") + more;
    assert (w + " ")[|w|] == ' ' && (f + " ")[|f|] == ' ' && f + " " <= s;
    assert |w| < |f| ==> (f + " ")[|w|] == f[|w|];
    assert |f| < |w| ==> (w + " ")[|f|] == w[|f|];
    PrefixAt(w + " ", s, |w|);
    PrefixAt(w + " ", s, |f|);
    PrefixAt(f + " ", s, |w|);
    PrefixAt(f + " ", s, |f|);
    assert w + " " <= s ==> |w| == |f|;
    assert w + " " <= s && |w| == |f| ==> w + " " == s[..|f| + 1] == f + " ";
    assert (w + " ")[..|w|] == w && (f + " ")[..|f|] == f;
  }

  lemma UpperOfTwo(f: string, more: string)
    ensures Upper(f + " " + more) == (Upper(f) + " ") + Upper(more)
  {
    UpperConcat(f + " ", more);
    UpperConcat(f, " ");
  }

  lemma NoBlank(f: string)
    requires IsField(f)
    ensures ' ' !in Upper(f)
  {
    UpperKeepsBlanks(f);
  }

  lemma StartsWithField(fs: seq<string>, w: string)
    requires fs != [] && IsField(fs[0]) && ' ' !in w
    ensures w + " " <= Upper(Joined(fs)) <==> |fs| > 1 && Upper(fs[0]) == w
  {
    NoBlank(fs[0]);
    if |fs| == 1 {
      OneField(Upper(fs[0]), w);
    } else {
      UpperOfTwo(fs[0], Joined(fs[1..]));
      FirstField(Upper(fs[0]), Upper(Joined(fs[1..])), w);
    }
  }

  /** The guard takes a text for a query exactly when its first field is SELECT or WITH in some case and
      another field follows; a text without fields is empty. */
  lemma QueryIff(sanitized: string, denied: seq<string>)
    ensures Guard(sanitized, denied) == Empty <==> Fields(sanitized) == []
    ensures Guard(sanitized, denied) in {Empty, NotSelect}
            <==> !(|Fields(sanitized)| > 1 && Upper(Fields(sanitized)[0]) in {"SELECT", "WITH"})
  {
    var fs := Fields(sanitized);
    NormalizedIsFields(sanitized);
    assert "SELECT" + " " == "SELECT " && "WITH" + " " == "WITH ";
    if fs != [] {
      JoinedEnds(fs);
      StartsWithField(fs, "SELECT");
      StartsWithField(fs, "WITH");
    }
  }

  // ---------------------------------------------------------------- block comments

  lemma OpensFirst(head: string, rest: string)
    requires (forall k :: !OpensAt(head, k)) && OpensAt(rest, 0)
    ensures FirstOpen(head + rest, 0) == |head|
  {
    var s := head + rest;
    assert OpensAt(s, |head|);
    forall k | 0 <= k < |head| ensures !OpensAt(s, k) {
      assert k + 1 < |head| ==> !OpensAt(head, k);
      assert k + 1 == |head| ==> s[k + 1] == rest[0];
    }
  }

  lemma ClosesInside(head: string, inner: string, rest: string, k: nat)
    requires k < |inner| && (forall i :: !ClosesAt(inner, i)) && ClosesAt(rest, 0)
    ensures !ClosesAt(head + inner + rest, |head| + k)
  {
    var s, n := head + inner + rest, |head|;
    assert s[n + k] == inner[k] && !ClosesAt(inner, k);
    if k + 1 < |inner| {
      assert s[n + k + 1] == inner[k + 1];
    } else {
      assert s[n + k + 1] == rest[0];
    }
  }

  lemma ClosesFirst(head: string, inner: string, rest: string)
    requires (forall k :: !ClosesAt(inner, k)) && ClosesAt(rest, 0)
    ensures FirstClose(head + inner + rest, |head|) == |head| + |inner|
  {
    var s, n := head + inner + rest, |head|;
    assert s[n + |inner|] == rest[0] && s[n + |inner| + 1] == rest[1];
    assert ClosesAt(s, n + |inner|);
    forall k | n <= k < n + |inner| ensures !ClosesAt(s, k) {
      ClosesInside(head, inner, rest, k - n);
    }
    FirstCloseIs(s, n, n + |inner|);
  }

  lemma FirstCloseIs(s: string, from: nat, at: nat)
    requires from <= at < |s| && ClosesAt(s, at) && forall k | from <= k < at :: !ClosesAt(s, k)
    ensures FirstClose(s, from) == at
  {
    var first := FirstClose(s, from);
    assert first <= at;
  }

  /** The first comment becomes one blank, what stands before it stays, and what follows its first closer
      goes through the pass itself. */
  lemma StripsFirstBlock(head: string, inner: string, tail: string)
    requires forall k :: !OpensAt(head, k)
    requires forall k :: !ClosesAt(inner, k)
    ensures StripBlocks(head + "/*" + inner + "*/" + tail) == head + " " + StripBlocks(tail)
  {
    var s := head + "/*" + inner + "*/" + tail;
    assert s == head + ("/*" + inner + "*/" + tail) == head + "/*" + inner + ("*/" + tail);
    OpensFirst(head, "/*" + inner + "*/" + tail);
    assert |head + "/*"| == |head| + 2;
    ClosesFirst(head + "/*", inner, "*/" + tail);
    assert s[..|head|] == head && s[|head| + 2 + |inner| + 2..] == tail;
  }
}
