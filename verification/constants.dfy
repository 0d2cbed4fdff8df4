/**
 * The shared constants and the domain allowlist (src/lib/constants.ts):
 * the activity window, the parse of the comma-separated ALLOWED_DOMAINS
 * value, and the `isDomainAllowed` rule used by both endpoints and by the
 * widget script.
 */
module Constants {
  import opened Wrappers

  /** Length of the "now" window and of the widget's heartbeat period: 5 minutes. */
  const ACTIVITY_THRESHOLD_MS: int := 5 * 60 * 1000

  /** The list used when ALLOWED_DOMAINS is unset or empty. */
  const DEFAULT_DOMAINS: seq<string> := ["localhost"]

  // ---------------------------------------------------------------------------
  // String.prototype.trim
  // ---------------------------------------------------------------------------

  /**
   * The code points String.prototype.trim removes: ECMAScript WhiteSpace
   * (tab, vertical tab, form feed, space, no-break space, BOM and the
   * Unicode space separators) and LineTerminator (LF, CR, LS, PS).
   */
  predicate IsJsWhitespace(c: char) {
    || c == '\t' || c == '\n' || c == '\U{000B}' || c == '\U{000C}' || c == '\r'
    || c == ' ' || c == '\U{00A0}' || c == '\U{1680}'
    || ('\U{2000}' <= c <= '\U{200A}')
    || c == '\U{2028}' || c == '\U{2029}' || c == '\U{202F}' || c == '\U{205F}'
    || c == '\U{3000}' || c == '\U{FEFF}'
  }

  /** `s` neither starts nor ends with whitespace. */
  predicate Trimmed(s: string) {
    s != [] ==> !IsJsWhitespace(s[0]) && !IsJsWhitespace(s[|s| - 1])
  }

  /** Where the trimmed text of `s` starts when scanning from `i`: the first non-whitespace position. */
  function TrimStartIndex(s: string, i: nat): (k: nat)
    requires i <= |s|
    ensures i <= k <= |s|
    decreases |s| - i
  {
    if i < |s| && IsJsWhitespace(s[i]) then TrimStartIndex(s, i + 1) else i
  }

  /** The scan from `i` passes whitespace only and stops at the first other character. */
  lemma {:induction false} TrimStartIndexCut(s: string, i: nat)
    requires i <= |s|
    ensures forall k :: i <= k < TrimStartIndex(s, i) ==> IsJsWhitespace(s[k])
    ensures TrimStartIndex(s, i) < |s| ==> !IsJsWhitespace(s[TrimStartIndex(s, i)])
    decreases |s| - i
  {
    if i < |s| && IsJsWhitespace(s[i]) {
      TrimStartIndexCut(s, i + 1);
    }
  }

  /**
   * Where the trimmed text of `s` ends when scanning back from `j`, never
   * passing `lo`: just after the last non-whitespace position.
   */
  function TrimEndIndex(s: string, lo: nat, j: nat): (k: nat)
    requires lo <= j <= |s|
    ensures lo <= k <= j
    decreases j
  {
    if lo < j && IsJsWhitespace(s[j - 1]) then TrimEndIndex(s, lo, j - 1) else j
  }

  /** The backward scan passes whitespace only and stops after a character that is not. */
  lemma {:induction false} TrimEndIndexCut(s: string, lo: nat, j: nat)
    requires lo <= j <= |s|
    ensures forall k :: TrimEndIndex(s, lo, j) <= k < j ==> IsJsWhitespace(s[k])
    ensures lo < TrimEndIndex(s, lo, j) ==> !IsJsWhitespace(s[TrimEndIndex(s, lo, j) - 1])
    decreases j
  {
    if lo < j && IsJsWhitespace(s[j - 1]) {
      TrimEndIndexCut(s, lo, j - 1);
    }
  }

  /** `s.trim()`: TrimIsTrimmed and TrimIsSlice state what is cut off. */
  function Trim(s: string): (r: string)
    ensures |r| <= |s|
  {
    var start := TrimStartIndex(s, 0);
    s[start..TrimEndIndex(s, start, |s|)]
  }

  /** What is left neither starts nor ends with whitespace. */
  lemma TrimIsTrimmed(s: string)
    ensures Trimmed(Trim(s))
  {
    var start := TrimStartIndex(s, 0);
    var end := TrimEndIndex(s, start, |s|);
    TrimStartIndexCut(s, 0);
    TrimEndIndexCut(s, start, |s|);
    var r := Trim(s);
    if r != [] {
      assert r[0] == s[start] && r[|r| - 1] == s[end - 1];
    }
  }

  /**
   * Trim cuts off whitespace only: the result is the slice of `s` that starts
   * at the first non-whitespace character, and what lies on either side of it
   * is whitespace.
   */
  lemma TrimIsSlice(s: string)
    ensures var r, i := Trim(s), TrimStartIndex(s, 0);
      && i + |r| <= |s|
      && r == s[i..i + |r|]
      && (forall k :: 0 <= k < i ==> IsJsWhitespace(s[k]))
      && (forall k :: i + |r| <= k < |s| ==> IsJsWhitespace(s[k]))
  {
    var start := TrimStartIndex(s, 0);
    TrimStartIndexCut(s, 0);
    TrimEndIndexCut(s, start, |s|);
  }

  /** A string that neither starts nor ends with whitespace is its own trim. */
  lemma {:induction false} TrimOfTrimmed(s: string)
    requires Trimmed(s)
    ensures Trim(s) == s
  {
    assert TrimStartIndex(s, 0) == 0;
    assert TrimEndIndex(s, 0, |s|) == |s|;
  }

  /** Trimming twice is trimming once. */
  lemma TrimIdempotent(s: string)
    ensures Trim(Trim(s)) == Trim(s)
  {
    TrimIsTrimmed(s);
    TrimOfTrimmed(Trim(s));
  }

  // ---------------------------------------------------------------------------
  // String.prototype.split with a one-character separator
  // ---------------------------------------------------------------------------

  /** The pieces glued back together with `sep` between neighbours. */
  function Join(pieces: seq<string>, sep: char): string
    requires |pieces| >= 1
  {
    if |pieces| == 1 then pieces[0] else pieces[0] + [sep] + Join(pieces[1..], sep)
  }

  /**
   * `s.split(sep)`: the maximal `sep`-free pieces of `s`, in order; there is
   * always at least one piece (`"".split(",")` is `[""]`), and joining them
   * with `sep` gives back `s`.
   */
  function Split(s: string, sep: char): (pieces: seq<string>)
    ensures |pieces| >= 1
    ensures forall i :: 0 <= i < |pieces| ==> sep !in pieces[i]
    ensures Join(pieces, sep) == s
  {
    if s == [] then [[]]
    else
      var rest := Split(s[1..], sep);
      if s[0] == sep then
        assert ([[]] + rest)[1..] == rest;
        [[]] + rest
      else
        var first := [s[0]] + rest[0];
        var pieces := [first] + rest[1..];
        assert pieces[1..] == rest[1..];
        assert sep !in first;
        if |rest| == 1 then pieces
        else
          assert Join(rest, sep) == rest[0] + [sep] + Join(rest[1..], sep);
          pieces
  }

  /** A piece without `sep`, followed by `sep`, splits off as the first piece. */
  lemma {:induction false} SplitAfterPiece(p: string, sep: char, tail: string)
    requires sep !in p
    ensures Split(p + [sep] + tail, sep) == [p] + Split(tail, sep)
    decreases |p|
  {
    if p == [] {
      assert p + [sep] + tail == [sep] + tail;
      assert ([sep] + tail)[1..] == tail;
    } else {
      var s := p + [sep] + tail;
      assert s[0] == p[0] && s[1..] == p[1..] + [sep] + tail;
      SplitAfterPiece(p[1..], sep, tail);
      assert [p[0]] + p[1..] == p;
    }
  }

  /** A string without `sep` is a single piece. */
  lemma {:induction false} SplitNoSeparator(p: string, sep: char)
    requires sep !in p
    ensures Split(p, sep) == [p]
    decreases |p|
  {
    if p != [] {
      SplitNoSeparator(p[1..], sep);
      assert [p[0]] + p[1..] == p;
    }
  }

  /**
   * Split is the inverse of Join: sep-free pieces joined with `sep` split back
   * into exactly those pieces. With the ensures of Split, the split of a
   * string is its unique decomposition into sep-free pieces.
   */
  lemma {:induction false} SplitJoin(pieces: seq<string>, sep: char)
    requires |pieces| >= 1
    requires forall i :: 0 <= i < |pieces| ==> sep !in pieces[i]
    ensures Split(Join(pieces, sep), sep) == pieces
    decreases |pieces|
  {
    if |pieces| == 1 {
      SplitNoSeparator(pieces[0], sep);
    } else {
      SplitJoin(pieces[1..], sep);
      SplitAfterPiece(pieces[0], sep, Join(pieces[1..], sep));
      assert [pieces[0]] + pieces[1..] == pieces;
    }
  }

  // ---------------------------------------------------------------------------
  // getAllowedDomains
  // ---------------------------------------------------------------------------

  /**
   * `getAllowedDomains()` for an ALLOWED_DOMAINS value `env`: the default list
   * when the value is absent or empty (both falsy), otherwise one trimmed
   * entry per comma-separated piece, in order.
   */
  function ParseAllowedDomains(env: Option<string>): (domains: seq<string>)
    ensures env == None || env == Some("") ==> domains == DEFAULT_DOMAINS
    ensures env.Some? && env.value != "" ==>
      |domains| == |Split(env.value, ',')|
      && forall i :: 0 <= i < |domains| ==> domains[i] == Trim(Split(env.value, ',')[i])
    ensures |domains| >= 1
  {
    if env.Some? && env.value != "" then TrimEach(Split(env.value, ',')) else DEFAULT_DOMAINS
  }

  /** Every piece trimmed, in order. */
  function TrimEach(pieces: seq<string>): (r: seq<string>)
    ensures |r| == |pieces|
    ensures forall i :: 0 <= i < |r| ==> r[i] == Trim(pieces[i])
  {
    if pieces == [] then [] else [Trim(pieces[0])] + TrimEach(pieces[1..])
  }

  /** Pieces that are already trimmed come through TrimEach unchanged. */
  lemma {:induction false} TrimEachOfTrimmed(pieces: seq<string>)
    requires forall i :: 0 <= i < |pieces| ==> Trimmed(pieces[i])
    ensures TrimEach(pieces) == pieces
  {
    if pieces != [] {
      TrimOfTrimmed(pieces[0]);
      TrimEachOfTrimmed(pieces[1..]);
      assert [pieces[0]] + pieces[1..] == pieces;
    }
  }

  /** A list written as sep-free, already trimmed entries is read back exactly. */
  lemma ParseJoinedList(entries: seq<string>)
    requires |entries| >= 1 && Join(entries, ',') != ""
    requires forall i :: 0 <= i < |entries| ==> ',' !in entries[i]
    requires forall i :: 0 <= i < |entries| ==> Trimmed(entries[i])
    ensures ParseAllowedDomains(Some(Join(entries, ','))) == entries
  {
    SplitJoin(entries, ',');
    TrimEachOfTrimmed(entries);
  }

  // ---------------------------------------------------------------------------
  // isDomainAllowed
  // ---------------------------------------------------------------------------

  /** `domain.startsWith("www.")` */
  predicate HasWwwPrefix(domain: string) {
    |domain| >= 4 && domain[..4] == "www."
  }

  /**
   * `isDomainAllowed(domain)` against the list `allowed`: an exact entry
   * admits the domain; otherwise one leading "www." is stripped and the rest
   * must be an exact entry; anything else is refused.
   */
  function IsDomainAllowed(allowed: seq<string>, domain: string): (ok: bool)
    ensures domain in allowed ==> ok
    ensures domain !in allowed && HasWwwPrefix(domain) ==> (ok <==> domain[4..] in allowed)
    ensures domain !in allowed && !HasWwwPrefix(domain) ==> !ok
  {
    if domain in allowed then true
    else if HasWwwPrefix(domain) then domain[4..] in allowed
    else false
  }

  /** "www." + d is admitted exactly when it or d is listed. */
  lemma WwwEquivalence(allowed: seq<string>, d: string)
    ensures IsDomainAllowed(allowed, "www." + d) <==> ("www." + d in allowed || d in allowed)
  {
    var w := "www." + d;
    assert w[..4] == "www." && w[4..] == d;
  }

  /**
   * Only one "www." is stripped: "www.www." + d is refused when neither it
   * nor "www." + d is listed, even if d itself is.
   */
  lemma OnlyOneWwwStripped(allowed: seq<string>, d: string)
    requires "www.www." + d !in allowed && "www." + d !in allowed
    ensures !IsDomainAllowed(allowed, "www.www." + d)
  {
    var w := "www.www." + d;
    assert w[..4] == "www." && w[4..] == "www." + d;
  }

  /** There is no reverse rule: listing "www." + d does not admit a bare, unlisted d. */
  lemma NoReverseRule(allowed: seq<string>, d: string)
    requires "www." + d in allowed && d !in allowed && !HasWwwPrefix(d)
    ensures !IsDomainAllowed(allowed, d)
  {
  }

  /** Adding entries never turns an admitted domain into a refused one. */
  lemma AllowlistMonotone(allowed: seq<string>, more: seq<string>, domain: string)
    requires forall x :: x in allowed ==> x in more
    requires IsDomainAllowed(allowed, domain)
    ensures IsDomainAllowed(more, domain)
  {
  }

  /** The default list admits exactly "localhost" and "www.localhost". */
  lemma DefaultList(domain: string)
    ensures IsDomainAllowed(DEFAULT_DOMAINS, domain) <==> domain == "localhost" || domain == "www.localhost"
  {
    if domain == "www.localhost" {
      assert domain[..4] == "www." && domain[4..] == "localhost";
    }
    if IsDomainAllowed(DEFAULT_DOMAINS, domain) && domain != "localhost" {
      assert domain[..4] == "www." && domain[4..] == "localhost";
      assert domain == domain[..4] + domain[4..];
    }
  }

  /**
   * A stray trailing comma in ALLOWED_DOMAINS ("a.com,") yields an empty
   * entry, and an empty entry admits the bare string "www.", since stripping
   * its prefix leaves "".
   */
  lemma TrailingCommaAdmitsBareWww(entry: string)
    requires ',' !in entry
    requires Trimmed(entry)
    ensures ParseAllowedDomains(Some(entry + [','])) == [entry, ""]
    ensures IsDomainAllowed(ParseAllowedDomains(Some(entry + [','])), "www.")
  {
    var entries := [entry, ""];
    assert Join(entries, ',') == entry + [','] by {
      assert entries[1..] == [""];
    }
    ParseJoinedList(entries);
    assert "www."[4..] == "";
  }
}
