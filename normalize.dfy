/**
 * The line normalizer: quoted segments are removed, then whitespace runs are
 * collapsed to single spaces and the ends are stripped. Every pattern match and
 * every delimiter count of the scanner works on the normalized line.
 */
module Normalize {
  import opened Wrappers
  import opened Strings

  predicate IsQuote(c: char)
  {
    c == '\'' || c == '"'
  }

  /**
   * The characters `str.split()` and `str.strip()` treat as whitespace, i.e. those
   * for which `str.isspace()` holds: the ASCII controls 9-13 and 28-31, the space,
   * U+0085, U+00A0, and the Unicode space and separator characters.
   */
  predicate IsSpace(c: char)
  {
    || c == ' ' || ('\t' <= c <= '\r') || ('\U{001C}' <= c <= '\U{001F}')
    || c == '\U{0085}' || c == '\U{00A0}' || c == '\U{1680}'
    || ('\U{2000}' <= c <= '\U{200A}') || c == '\U{2028}' || c == '\U{2029}'
    || c == '\U{202F}' || c == '\U{205F}' || c == '\U{3000}'
  }

  predicate NoSpace(w: string)
  {
    forall k :: 0 <= k < |w| ==> !IsSpace(w[k])
  }

  predicate NoQuote(s: string)
  {
    forall k :: 0 <= k < |s| ==> !IsQuote(s[k])
  }

  /** The first position at or after `k` that holds `q`. */
  function NextAt(s: string, q: char, k: nat): (r: Option<nat>)
    ensures r.Some? ==> k <= r.value < |s| && s[r.value] == q
    ensures r.Some? ==> forall m :: k <= m < r.value ==> s[m] != q
    ensures r.None? ==> forall m :: k <= m < |s| ==> s[m] != q
    decreases |s| - k
  {
    if k >= |s| then None
    else if s[k] == q then Some(k)
    else NextAt(s, q, k + 1)
  }

  /**
   * The substitution of `'[^']*'|"[^"]*"` by nothing, scanning left to right: a
   * quote that has a partner further on is dropped together with everything up to
   * and including that partner; a quote without a partner is kept.
   */
  function StripQuotes(s: string): (r: string)
    ensures |r| <= |s|
    ensures forall c :: c in r ==> c in s
    decreases |s|
  {
    if s == [] then []
    else if IsQuote(s[0]) && NextAt(s, s[0], 1).Some? then
      StripQuotes(s[NextAt(s, s[0], 1).value + 1..])
    else
      [s[0]] + StripQuotes(s[1..])
  }

  /** The words of `s` (`str.split()` without arguments); `cur` is the word being read. */
  function WordsFrom(s: string, cur: string): (ws: seq<string>)
    requires NoSpace(cur)
    ensures forall k :: 0 <= k < |ws| ==> ws[k] != [] && NoSpace(ws[k])
    decreases |s|
  {
    if s == [] then (if cur == [] then [] else [cur])
    else if IsSpace(s[0]) then
      (if cur == [] then WordsFrom(s[1..], []) else [cur] + WordsFrom(s[1..], []))
    else WordsFrom(s[1..], cur + [s[0]])
  }

  function Words(s: string): seq<string>
  {
    WordsFrom(s, [])
  }

  function TrimStart(s: string): string
  {
    if s != [] && IsSpace(s[0]) then TrimStart(s[1..]) else s
  }

  function TrimEnd(s: string): string
  {
    if s != [] && IsSpace(s[|s| - 1]) then TrimEnd(s[..|s| - 1]) else s
  }

  /** `str.strip()` without arguments. */
  function Strip(s: string): string
  {
    TrimEnd(TrimStart(s))
  }

  /** `GetNormalizedLine`: `' '.join(s.split()).strip()` after the quote substitution. */
  function GetNormalizedLine(line: string): string
  {
    Strip(Join(Words(StripQuotes(line)), ' '))
  }

  /** The text of `s` without its whitespace. */
  function NonSpace(s: string): string
  {
    if s == [] then [] else (if IsSpace(s[0]) then [] else [s[0]]) + NonSpace(s[1..])
  }

  /** Neither end is whitespace, the only whitespace is ' ', and no two spaces touch. */
  predicate Collapsed(r: string)
  {
    && (r != [] ==> !IsSpace(r[0]) && !IsSpace(r[|r| - 1]))
    && (forall k :: 0 <= k < |r| && IsSpace(r[k]) ==> r[k] == ' ')
    && (forall k :: 0 <= k < |r| - 1 ==> !(r[k] == ' ' && r[k + 1] == ' '))
  }

  // ---------------------------------------------------------------------------
  // Quote stripping

  /** A line without quote characters is left as it is. */
  lemma {:induction false} StripQuotesPlain(s: string)
    requires NoQuote(s)
    ensures StripQuotes(s) == s
    decreases |s|
  {
    if s != [] {
      StripQuotesPlain(s[1..]);
      assert [s[0]] + s[1..] == s;
    }
  }

  /** Text before the first quote is copied unchanged. */
  lemma {:induction false} StripQuotesPlainPrefix(a: string, b: string)
    requires NoQuote(a)
    ensures StripQuotes(a + b) == a + StripQuotes(b)
    decreases |a|
  {
    if a != [] {
      assert (a + b)[0] == a[0] && (a + b)[1..] == a[1..] + b;
      assert !IsQuote(a[0]);
      assert StripQuotes(a + b) == [a[0]] + StripQuotes(a[1..] + b);
      StripQuotesPlainPrefix(a[1..], b);
      assert a + StripQuotes(b) == [a[0]] + (a[1..] + StripQuotes(b));
    } else {
      assert a + b == b;
    }
  }

  /** A quoted segment `q b q` is removed entirely, whatever the other quote kind inside it. */
  lemma StripQuotesDropsSegment(q: char, b: string, c: string)
    requires IsQuote(q) && q !in b
    ensures StripQuotes([q] + b + [q] + c) == StripQuotes(c)
  {
    var s := [q] + b + [q] + c;
    NextAtSkips(s, q, 1, |b| + 1);
    assert s[|b| + 2..] == c;
  }

  /** A quote with no partner further on is kept, and scanning goes on after it. */
  lemma StripQuotesKeepsUnmatched(q: char, b: string)
    requires IsQuote(q) && q !in b
    ensures StripQuotes([q] + b) == [q] + StripQuotes(b)
  {
    var s := [q] + b;
    NextAtSkips(s, q, 1, |s|);
    assert s[1..] == b;
  }

  lemma {:induction false} NextAtSkips(s: string, q: char, k: nat, p: nat)
    requires k <= p <= |s|
    requires forall m :: k <= m < p ==> s[m] != q
    requires p < |s| ==> s[p] == q
    ensures NextAt(s, q, k) == if p < |s| then Some(p) else None
    decreases p - k
  {
    if k < p {
      NextAtSkips(s, q, k + 1, p);
    }
  }

  /** After stripping, each quote character occurs at most once: no quoted segment is left. */
  lemma {:induction false} StripQuotesLeavesNoPair(s: string)
    ensures forall i, j :: 0 <= i < j < |StripQuotes(s)| && IsQuote(StripQuotes(s)[i]) ==>
              StripQuotes(s)[i] != StripQuotes(s)[j]
    decreases |s|
  {
    if s == [] {
    } else if IsQuote(s[0]) && NextAt(s, s[0], 1).Some? {
      StripQuotesLeavesNoPair(s[NextAt(s, s[0], 1).value + 1..]);
    } else {
      StripQuotesLeavesNoPair(s[1..]);
      var r := StripQuotes(s);
      var tail := StripQuotes(s[1..]);
      assert r == [s[0]] + tail;
      if IsQuote(s[0]) {
        assert forall m :: 0 <= m < |s[1..]| ==> s[1..][m] != s[0];
        assert s[0] !in s[1..];
        assert s[0] !in tail;
      }
      forall i, j | 0 <= i < j < |r| && IsQuote(r[i])
        ensures r[i] != r[j]
      {
        if i == 0 {
          assert r[j] == tail[j - 1] && r[j] in tail;
        } else {
          assert r[i] == tail[i - 1] && r[j] == tail[j - 1];
        }
      }
    }
  }

  // ---------------------------------------------------------------------------
  // Whitespace collapsing

  lemma {:induction false} NonSpaceAppend(a: string, b: string)
    ensures NonSpace(a + b) == NonSpace(a) + NonSpace(b)
    decreases |a|
  {
    if a != [] {
      assert (a + b)[0] == a[0] && (a + b)[1..] == a[1..] + b;
      NonSpaceAppend(a[1..], b);
      assert NonSpace(a + b) == (if IsSpace(a[0]) then [] else [a[0]]) + NonSpace(a[1..] + b);
    } else {
      assert a + b == b;
    }
  }

  lemma {:induction false} NonSpaceOfWord(w: string)
    requires NoSpace(w)
    ensures NonSpace(w) == w
    decreases |w|
  {
    if w != [] {
      NonSpaceOfWord(w[1..]);
      assert [w[0]] + w[1..] == w;
    }
  }

  /** The words together hold exactly the non-whitespace text, in order. */
  lemma {:induction false} WordsKeepText(s: string, cur: string)
    requires NoSpace(cur)
    ensures NonSpace(Join(WordsFrom(s, cur), ' ')) == cur + NonSpace(s)
    decreases |s|
  {
    var ws := WordsFrom(s, cur);
    if s == [] {
      if cur != [] { NonSpaceOfWord(cur); }
    } else if IsSpace(s[0]) {
      WordsKeepText(s[1..], []);
      var rest := WordsFrom(s[1..], []);
      if cur != [] {
        NonSpaceOfWord(cur);
        if rest == [] {
          assert Join(ws, ' ') == cur;
        } else {
          assert Join(ws, ' ') == cur + [' '] + Join(rest, ' ');
          NonSpaceAppend(cur + [' '], Join(rest, ' '));
          NonSpaceAppend(cur, [' ']);
        }
      }
    } else {
      WordsKeepText(s[1..], cur + [s[0]]);
      assert cur + [s[0]] + NonSpace(s[1..]) == cur + ([s[0]] + NonSpace(s[1..]));
    }
  }

  /** Reading a whitespace-free piece only extends the current word. */
  lemma {:induction false} WordsFromWord(w: string, rest: string, cur: string)
    requires NoSpace(w) && NoSpace(cur)
    ensures WordsFrom(w + rest, cur) == WordsFrom(rest, cur + w)
    decreases |w|
  {
    if w == [] {
      assert w + rest == rest && cur + w == cur;
    } else {
      var s := w + rest;
      assert s[0] == w[0] && !IsSpace(s[0]);
      assert s[1..] == w[1..] + rest;
      assert WordsFrom(s, cur) == WordsFrom(w[1..] + rest, cur + [w[0]]);
      WordsFromWord(w[1..], rest, cur + [w[0]]);
      assert cur + [w[0]] + w[1..] == cur + w;
    }
  }

  /**
   * Splitting words joined by single spaces gives the words back: `split()` breaks
   * exactly at each separating space.
   */
  lemma {:induction false} WordsOfJoin(ws: seq<string>)
    requires forall k :: 0 <= k < |ws| ==> ws[k] != [] && NoSpace(ws[k])
    ensures Words(Join(ws, ' ')) == ws
    decreases |ws|
  {
    if |ws| == 1 {
      WordsFromWord(ws[0], [], []);
      assert ws[0] + [] == ws[0] && [] + ws[0] == ws[0];
    } else if |ws| > 1 {
      var w, rest := ws[0], Join(ws[1..], ' ');
      assert Join(ws, ' ') == w + ([' '] + rest);
      WordsFromWord(w, [' '] + rest, []);
      assert [] + w == w;
      assert ([' '] + rest)[1..] == rest;
      WordsOfJoin(ws[1..]);
      assert ws == [w] + ws[1..];
    }
  }

  /** Joining non-empty words free of whitespace with single spaces gives a collapsed text. */
  lemma {:induction false} JoinCollapsed(ws: seq<string>)
    requires forall k :: 0 <= k < |ws| ==> ws[k] != [] && NoSpace(ws[k])
    ensures Collapsed(Join(ws, ' '))
    ensures ws != [] ==> Join(ws, ' ') != []
    decreases |ws|
  {
    if |ws| > 1 {
      JoinCollapsed(ws[1..]);
      var w, rest := ws[0], Join(ws[1..], ' ');
      var r := Join(ws, ' ');
      assert r == w + [' '] + rest;
      assert r[0] == w[0] && r[|r| - 1] == rest[|rest| - 1];
      forall k | 0 <= k < |r| && IsSpace(r[k])
        ensures r[k] == ' '
      {
        if k > |w| { assert r[k] == rest[k - |w| - 1]; }
      }
      forall k | 0 <= k < |r| - 1
        ensures !(r[k] == ' ' && r[k + 1] == ' ')
      {
        if k < |w| { assert r[k] == w[k]; }
        else if k == |w| { assert r[k + 1] == rest[0]; }
        else { assert r[k] == rest[k - |w| - 1] && r[k + 1] == rest[k - |w|]; }
      }
    }
  }

  /** A text whose ends are not whitespace is left as it is by `strip`. */
  lemma StripKeepsTrimmed(r: string)
    requires r != [] ==> !IsSpace(r[0]) && !IsSpace(r[|r| - 1])
    ensures Strip(r) == r
  {
  }

  /**
   * The normalized line has no whitespace at either end, no whitespace other than
   * single spaces, and holds exactly the non-whitespace text left after the quoted
   * segments were removed.
   */
  lemma NormalizedShape(line: string)
    ensures Collapsed(GetNormalizedLine(line))
    ensures NonSpace(GetNormalizedLine(line)) == NonSpace(StripQuotes(line))
    ensures Words(GetNormalizedLine(line)) == Words(StripQuotes(line))
  {
    var ws := Words(StripQuotes(line));
    JoinCollapsed(ws);
    StripKeepsTrimmed(Join(ws, ' '));
    WordsKeepText(StripQuotes(line), []);
    WordsOfJoin(ws);
  }

  /** On a line without quote characters only whitespace changes. */
  lemma NormalizedPlainLine(line: string)
    requires NoQuote(line)
    ensures NonSpace(GetNormalizedLine(line)) == NonSpace(line)
  {
    StripQuotesPlain(line);
    NormalizedShape(line);
  }
}
