/** String helpers that mirror the Python `str` methods the services call. */
module Text {

  /** The characters for which Python's `str.isspace` holds; `str.strip()` removes these. */
  predicate IsSpace(c: char) {
    var n := c as int;
    (9 <= n <= 13) || (28 <= n <= 32) || n == 0x85 || n == 0xA0 || n == 0x1680
    || (0x2000 <= n <= 0x200A) || n == 0x2028 || n == 0x2029 || n == 0x202F
    || n == 0x205F || n == 0x3000
  }

  predicate AllSpace(s: string) {
    forall i :: 0 <= i < |s| ==> IsSpace(s[i])
  }

  /** `s.rstrip(c)` for a single character `c`. */
  function DropTrailing(s: string, c: char): (r: string)
    ensures r <= s
    ensures r == [] || r[|r| - 1] != c
    ensures forall i :: |r| <= i < |s| ==> s[i] == c
  {
    if |s| == 0 || s[|s| - 1] != c then s else DropTrailing(s[..|s| - 1], c)
  }

  /** `s.lstrip(c)` for a single character `c`. */
  function DropLeading(s: string, c: char): (r: string)
    ensures |r| <= |s| && r == s[|s| - |r|..]
    ensures r == [] || r[0] != c
    ensures forall i :: 0 <= i < |s| - |r| ==> s[i] == c
  {
    if |s| == 0 || s[0] != c then s else DropLeading(s[1..], c)
  }

  function RStripSpace(s: string): (r: string)
    ensures r <= s
    ensures r == [] || !IsSpace(r[|r| - 1])
    ensures AllSpace(s[|r|..])
  {
    if |s| == 0 || !IsSpace(s[|s| - 1]) then s
    else
      var r := RStripSpace(s[..|s| - 1]);
      assert s[|r|..] == s[..|s| - 1][|r|..] + [s[|s| - 1]];
      r
  }

  function LStripSpace(s: string): (r: string)
    ensures |r| <= |s| && r == s[|s| - |r|..]
    ensures r == [] || !IsSpace(r[0])
    ensures AllSpace(s[..|s| - |r|])
  {
    if |s| == 0 || IsSpace(s[0]) == false then s
    else
      var r := LStripSpace(s[1..]);
      assert s[..|s| - |r|] == [s[0]] + s[1..][..|s| - 1 - |r|];
      r
  }

  /** `s.strip()`: whitespace removed from both ends. */
  function Strip(s: string): (r: string)
    ensures |r| <= |s|
    ensures r == [] || (!IsSpace(r[0]) && !IsSpace(r[|r| - 1]))
  {
    var t := RStripSpace(s);
    var r := LStripSpace(t);
    assert r == [] || r[|r| - 1] == t[|t| - 1];
    r
  }

  /** The stripped text is the slice of `s` starting at `i`, with only whitespace around it. */
  lemma StripSlice(s: string) returns (i: nat)
    ensures i + |Strip(s)| <= |s| && Strip(s) == s[i..i + |Strip(s)|]
    ensures AllSpace(s[..i]) && AllSpace(s[i + |Strip(s)|..])
  {
    var t := RStripSpace(s);
    var r := LStripSpace(t);
    i := |t| - |r|;
    assert t == s[..|t|];
    assert i + |r| == |t|;
    assert r == t[i..] == s[i..|t|];
    assert s[..i] == t[..i];
    assert s[i + |r|..] == s[|t|..];
  }

  /** Stripping leaves nothing exactly when the text is all whitespace. */
  lemma StripBlank(s: string)
    ensures Strip(s) == "" <==> AllSpace(s)
  {
    var t := RStripSpace(s);
    assert t == "" <==> AllSpace(s) by {
      if t == "" {
        assert s[|t|..] == s;
      } else {
        assert t[|t| - 1] == s[|t| - 1];
      }
    }
    var r := LStripSpace(t);
    assert r == "" <==> t == "";
  }

  /** Stripping twice is stripping once. */
  lemma StripIdempotent(s: string)
    ensures Strip(Strip(s)) == Strip(s)
  {
    var t := Strip(s);
    assert RStripSpace(t) == t;
    assert LStripSpace(t) == t;
  }

  /** `s.replace("\r\n", "\n")`, read from the end of the text. `ReplaceCrlfIsScan` proves it
      equal to the left-to-right scan Python performs. */
  function ReplaceCrlf(s: string): (r: string)
    ensures |r| <= |s|
    decreases |s|
  {
    if |s| == 0 then ""
    else if |s| >= 2 && s[|s| - 2] == '\r' && s[|s| - 1] == '\n' then ReplaceCrlf(s[..|s| - 2]) + "\n"
    else ReplaceCrlf(s[..|s| - 1]) + [s[|s| - 1]]
  }

  /** The left-to-right scan of `str.replace`: a CRLF pair at the front becomes one line feed
      and the scan resumes after it; any other character is copied. */
  function ScanCrlf(s: string): string {
    if |s| < 2 then s
    else if s[0] == '\r' && s[1] == '\n' then "\n" + ScanCrlf(s[2..])
    else [s[0]] + ScanCrlf(s[1..])
  }

  /** The scan of two texts joined where no CRLF pair straddles the seam is the two scans joined. */
  lemma {:induction false} ScanCrlfAppend(w: string, t: string)
    requires w == [] || t == [] || !(w[|w| - 1] == '\r' && t[0] == '\n')
    ensures ScanCrlf(w + t) == ScanCrlf(w) + ScanCrlf(t)
    decreases |w|
  {
    if |w| == 0 {
      assert w + t == t;
    } else if |w| == 1 {
      ScanCrlfAppendChar(w, t);
    } else {
      var n := if w[0] == '\r' && w[1] == '\n' then 2 else 1;
      ScanCrlfFront(w, t);
      assert w[n..] == [] || w[n..][|w[n..]| - 1] == w[|w| - 1];
      ScanCrlfAppend(w[n..], t);
    }
  }

  /** One character that does not open a CRLF pair with the text after it is copied ahead of
      that text's scan. */
  lemma ScanCrlfAppendChar(w: string, t: string)
    requires |w| == 1
    requires t == [] || !(w[0] == '\r' && t[0] == '\n')
    ensures ScanCrlf(w + t) == ScanCrlf(w) + ScanCrlf(t)
  {
    if |t| == 0 {
      assert w + t == w;
    } else {
      assert (w + t)[1..] == t;
    }
  }

  /** The front step of the scan is the same whether or not more text follows. */
  lemma ScanCrlfFront(w: string, t: string)
    requires |w| >= 2
    ensures var n := if w[0] == '\r' && w[1] == '\n' then 2 else 1;
            var head := if n == 2 then "\n" else [w[0]];
            ScanCrlf(w + t) == head + ScanCrlf(w[n..] + t) && ScanCrlf(w) == head + ScanCrlf(w[n..])
  {
    var n := if w[0] == '\r' && w[1] == '\n' then 2 else 1;
    assert (w + t)[0] == w[0] && (w + t)[1] == w[1];
    assert (w + t)[n..] == w[n..] + t;
  }

  /** Reading the pairs from the end finds the same pairs as Python's scan from the front,
      because a CRLF pair cannot overlap another one. */
  lemma {:induction false} ReplaceCrlfIsScan(s: string)
    ensures ReplaceCrlf(s) == ScanCrlf(s)
    decreases |s|
  {
    if |s| >= 2 && s[|s| - 2] == '\r' && s[|s| - 1] == '\n' {
      var init := s[..|s| - 2];
      assert s == init + "\r\n";
      ReplaceCrlfIsScan(init);
      ScanCrlfAppend(init, "\r\n");
      assert ScanCrlf("\r\n") == "\n" by {
        assert "\r\n"[2..] == [];
      }
    } else if |s| > 0 {
      var init := s[..|s| - 1];
      assert s == init + [s[|s| - 1]];
      ReplaceCrlfIsScan(init);
      ScanCrlfAppend(init, [s[|s| - 1]]);
    }
  }

  /** A CRLF pair appended to the text is read as one line feed. */
  lemma ReplaceCrlfAppendCrlf(w: string)
    ensures ReplaceCrlf(w + "\r\n") == ReplaceCrlf(w) + "\n"
  {
    assert (w + "\r\n")[..|w|] == w;
  }

  /** A character other than LF appended to the text is kept as it is. */
  lemma ReplaceCrlfAppendChar(w: string, c: char)
    requires c != '\n'
    ensures ReplaceCrlf(w + [c]) == ReplaceCrlf(w) + [c]
  {
    assert (w + [c])[..|w|] == w;
  }

  /** Text without a CRLF pair comes back unchanged. */
  lemma {:induction false} ReplaceCrlfIdentity(s: string)
    requires !HasCrlf(s)
    ensures ReplaceCrlf(s) == s
    decreases |s|
  {
    if |s| > 0 {
      var init := s[..|s| - 1];
      var last := s[|s| - 1];
      assert s == init + [last];
      forall k | 0 <= k < |init| - 1 ensures !(init[k] == '\r' && init[k + 1] == '\n') {
        assert init[k] == s[k] && init[k + 1] == s[k + 1];
      }
      ReplaceCrlfIdentity(init);
      assert !(|s| >= 2 && s[|s| - 2] == '\r' && s[|s| - 1] == '\n');
      calc {
        ReplaceCrlf(s);
        ReplaceCrlf(init) + [last];
        init + [last];
      }
    }
  }

  predicate HasCrlf(s: string) {
    exists k :: 0 <= k < |s| - 1 && s[k] == '\r' && s[k + 1] == '\n'
  }

  /** `sep.join(parts)`. */
  function Join(parts: seq<string>, sep: string): (r: string)
    ensures |parts| == 1 ==> r == parts[0]
    ensures |parts| == 0 ==> r == ""
  {
    if |parts| == 0 then ""
    else if |parts| == 1 then parts[0]
    else parts[0] + sep + Join(parts[1..], sep)
  }

  /** Joining at least one non-empty part gives a non-empty string. */
  lemma {:induction false} JoinNonEmpty(parts: seq<string>, sep: string)
    requires exists k :: 0 <= k < |parts| && parts[k] != ""
    ensures Join(parts, sep) != ""
  {
    if |parts| > 1 && parts[0] == "" {
      var k :| 0 <= k < |parts| && parts[k] != "";
      assert parts[1..][k - 1] != "";
      JoinNonEmpty(parts[1..], sep);
      assert Join(parts, sep) == parts[0] + sep + Join(parts[1..], sep);
    }
  }

  function Digit(d: nat): char
    requires d < 10
  {
    "0123456789"[d]
  }

  /** `str(n)` for a non-negative integer. */
  function NatToString(n: nat): (r: string)
    ensures |r| >= 1
  {
    if n < 10 then [Digit(n)] else NatToString(n / 10) + [Digit(n % 10)]
  }
}
