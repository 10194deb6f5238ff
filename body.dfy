/** The body validator, CleanAndAcceptBodyCandidate: a candidate body text is
    trimmed, refused when short or when it looks like an X.500 address, cut
    down to its printable runes, and refused again when too many of those are
    unusual symbols or replacement characters. */
module Body {
  import opened Wrappers
  import opened GoText

  /** The Unicode tables the validator consults and that this model does not
      reproduce: unicode.IsPrint, unicode.IsLetter and unicode.IsDigit. */
  datatype Categories = Categories(isPrint: char -> bool, isLetter: char -> bool, isDigit: char -> bool)

  /** The punctuation that counts as ordinary text. */
  const COMMON_PUNCTUATION: string := ",.;:!?()[]{}-_'\"/@#%&$*"

  /** Runes the output keeps: printable ones and the three layout controls. */
  predicate Kept(cats: Categories, r: char) {
    cats.isPrint(r) || r == '\n' || r == '\r' || r == '\t'
  }

  /** Kept runes that are neither letters, digits, white space nor common
      punctuation. */
  predicate Unusual(cats: Categories, r: char) {
    !(cats.isLetter(r) || cats.isDigit(r) || IsSpace(r) || r in COMMON_PUNCTUATION)
  }

  /** The output the validator builds: the kept runes of s, in order. */
  function Printable(cats: Categories, s: string): (t: string)
    ensures |t| <= |s|
    ensures forall k :: 0 <= k < |t| ==> Kept(cats, t[k])
  {
    if s == [] then []
    else
      var last := s[|s| - 1];
      Printable(cats, s[..|s| - 1]) + (if Kept(cats, last) then [last] else [])
  }

  /** How many kept runes of s are unusual. */
  function UnusualCount(cats: Categories, s: string): (n: nat)
  {
    if s == [] then 0
    else
      var last := s[|s| - 1];
      UnusualCount(cats, s[..|s| - 1]) + (if Kept(cats, last) && Unusual(cats, last) then 1 else 0)
  }

  /** The share test float64(nonLetter)/float64(total) > 0.4, in integers. */
  predicate TooUnusual(nonLetter: nat, total: nat) {
    nonLetter * 5 > total * 2
  }

  /** The number of replacement characters a text of `length` bytes may hold
      before it is considered garbled: a fifth below 50 bytes, a tenth below
      500, a twentieth above. */
  function MaxReplacements(length: nat): nat {
    if length < 50 then length / 5
    else if length < 500 then length / 10
    else length / 20
  }

  predicate TooGarbled(final: string) {
    var count := Count(final, REPLACEMENT);
    var length := Utf8Len(final);
    length > 0 && count > MaxReplacements(length) && count > 2
  }

  /** What CleanAndAcceptBodyCandidate(input, minLen) decides: the accepted
      body, or None for ("", false). */
  function BodyCandidate(cats: Categories, input: string, minLen: int): (r: Option<string>)
  {
    var cleaned := TrimSpace(input);
    if Utf8Len(cleaned) < minLen then None
    else if Contains(cleaned, "/O=") && Contains(cleaned, "/CN=") then None
    else
      var final := Printable(cats, cleaned);
      var total := |final|;
      if total == 0 || TooUnusual(UnusualCount(cats, cleaned), total) then None
      else if TooGarbled(final) then None
      else Some(final)
  }

  /** CleanAndAcceptBodyCandidate: one pass over the runes of the trimmed
      input, building the output and counting kept and unusual runes. */
  method CleanAndAcceptBodyCandidate(cats: Categories, input: string, minLen: int)
    returns (final: string, ok: bool)
    ensures ok ==> BodyCandidate(cats, input, minLen) == Some(final)
    ensures !ok ==> BodyCandidate(cats, input, minLen) == None && final == ""
  {
    var cleaned := TrimSpace(input);
    if Utf8Len(cleaned) < minLen {
      return "", false;
    }
    if Contains(cleaned, "/O=") && Contains(cleaned, "/CN=") {
      return "", false;
    }
    var nonLetter := 0;
    var total := 0;
    var output := [];
    for i := 0 to |cleaned|
      invariant output == Printable(cats, cleaned[..i])
      invariant total == |output|
      invariant nonLetter == UnusualCount(cats, cleaned[..i])
    {
      var r := cleaned[i];
      assert cleaned[..i + 1] == cleaned[..i] + [r];
      PrintableSnoc(cats, cleaned[..i], r);
      UnusualSnoc(cats, cleaned[..i], r);
      if Kept(cats, r) {
        output := output + [r];
        total := total + 1;
        if Unusual(cats, r) {
          nonLetter := nonLetter + 1;
        }
      }
    }
    assert cleaned[..|cleaned|] == cleaned;
    final := output;
    if total == 0 || TooUnusual(nonLetter, total) {
      return "", false;
    }
    if TooGarbled(final) {
      return "", false;
    }
    return final, true;
  }

  /** Every unusual rune counted is one the output keeps. */
  lemma {:induction false} UnusualWithinPrintable(cats: Categories, s: string)
    ensures UnusualCount(cats, s) <= |Printable(cats, s)|
  {
    if s != [] {
      UnusualWithinPrintable(cats, s[..|s| - 1]);
    }
  }

  /** An accepted body is the kept runes of the trimmed input: it is
      non-empty, holds only kept runes, came from a trimmed input at least
      minLen bytes long that is not an X.500 address, at most two fifths of
      its runes are unusual, and it is not garbled. */
  lemma AcceptedBody(cats: Categories, input: string, minLen: int)
    requires BodyCandidate(cats, input, minLen).Some?
    ensures var final := BodyCandidate(cats, input, minLen).value;
            var cleaned := TrimSpace(input);
            && final == Printable(cats, cleaned)
            && final != []
            && (forall k :: 0 <= k < |final| ==> Kept(cats, final[k]))
            && Utf8Len(cleaned) >= minLen
            && !(Contains(cleaned, "/O=") && Contains(cleaned, "/CN="))
            && UnusualCount(cats, cleaned) * 5 <= |final| * 2
            && !TooGarbled(final)
  {
  }

  /** The converse: an input is refused exactly when one of the checks
      fails, and an input that passes them all is accepted with its kept
      runes. */
  lemma BodyDecision(cats: Categories, input: string, minLen: int)
    ensures var cleaned := TrimSpace(input);
            var final := Printable(cats, cleaned);
            var passes := Utf8Len(cleaned) >= minLen
                          && !(Contains(cleaned, "/O=") && Contains(cleaned, "/CN="))
                          && final != []
                          && UnusualCount(cats, cleaned) * 5 <= |final| * 2
                          && !TooGarbled(final);
            && (BodyCandidate(cats, input, minLen).None? <==> !passes)
            && (passes ==> BodyCandidate(cats, input, minLen) == Some(final))
  {
  }

  /** Keeping the printable runes of an already printable text changes
      nothing. */
  lemma {:induction false} PrintableIdempotent(cats: Categories, s: string)
    ensures Printable(cats, Printable(cats, s)) == Printable(cats, s)
  {
    if s != [] {
      var init, last := s[..|s| - 1], s[|s| - 1];
      PrintableIdempotent(cats, init);
      var p := Printable(cats, init);
      if Kept(cats, last) {
        var q := p + [last];
        assert q[..|q| - 1] == p && q[|q| - 1] == last;
        assert Printable(cats, s) == q;
        assert Printable(cats, q) == Printable(cats, p) + [last];
      } else {
        assert Printable(cats, s) == p + [];
        assert p + [] == p;
      }
    }
  }

  /** The replacement-character test never rejects a text with two or fewer
      of them, whatever its length. */
  lemma FewReplacementsTolerated(final: string)
    requires Count(final, REPLACEMENT) <= 2
    ensures !TooGarbled(final)
  {
  }

  /** A long text is refused once more than a twentieth of its bytes' worth
      are replacement characters. */
  lemma GarbledLongText(final: string)
    requires Utf8Len(final) >= 500
    ensures TooGarbled(final) <==> Count(final, REPLACEMENT) > Utf8Len(final) / 20
  {
  }

  lemma PrintableSnoc(cats: Categories, s: string, c: char)
    ensures Printable(cats, s + [c]) == Printable(cats, s) + (if Kept(cats, c) then [c] else [])
  {
    assert (s + [c])[..|s|] == s;
  }

  lemma UnusualSnoc(cats: Categories, s: string, c: char)
    ensures UnusualCount(cats, s + [c]) == UnusualCount(cats, s) + (if Kept(cats, c) && Unusual(cats, c) then 1 else 0)
  {
    assert (s + [c])[..|s|] == s;
  }

  /** The length test looks at the trimmed input, not at the output: a body
      made acceptable by dropping unprintable runes may be shorter than
      minLen.  With any tables in which 'a' and 'b' are ordinary printable
      letters and BEL is not printable, as in Unicode's, the four bytes
      "ab" BEL BEL pass a minimum of 4 and the two-byte "ab" is accepted. */
  lemma AcceptedShorterThanMinimum(cats: Categories)
    requires Kept(cats, 'a') && Kept(cats, 'b') && !Kept(cats, '\U{7}')
    requires !Unusual(cats, 'a') && !Unusual(cats, 'b')
    ensures BodyCandidate(cats, "ab\U{7}\U{7}", 4) == Some("ab")
    ensures Utf8Len("ab") < 4
  {
    BellTrimmed();
    BellFiltered(cats);
    assert Count("ab", REPLACEMENT) == 0;
  }

  /** Filtering "ab" BEL BEL keeps "ab", and neither kept rune is unusual. */
  lemma BellFiltered(cats: Categories)
    requires Kept(cats, 'a') && Kept(cats, 'b') && !Kept(cats, '\U{7}')
    requires !Unusual(cats, 'a') && !Unusual(cats, 'b')
    ensures Printable(cats, "ab\U{7}\U{7}") == "ab"
    ensures UnusualCount(cats, "ab\U{7}\U{7}") == 0
  {
    assert "" + ['a'] == "a" && "a" + ['b'] == "ab";
    assert "ab" + ['\U{7}'] == "ab\U{7}" && "ab\U{7}" + ['\U{7}'] == "ab\U{7}\U{7}";
    PrintableSnoc(cats, "", 'a');
    PrintableSnoc(cats, "a", 'b');
    PrintableSnoc(cats, "ab", '\U{7}');
    PrintableSnoc(cats, "ab\U{7}", '\U{7}');
    UnusualSnoc(cats, "", 'a');
    UnusualSnoc(cats, "a", 'b');
    UnusualSnoc(cats, "ab", '\U{7}');
    UnusualSnoc(cats, "ab\U{7}", '\U{7}');
  }

  /** "ab" BEL BEL has no surrounding white space and no X.500 marker. */
  lemma BellTrimmed()
    ensures TrimSpace("ab\U{7}\U{7}") == "ab\U{7}\U{7}"
    ensures !Contains("ab\U{7}\U{7}", "/O=")
  {
    var input := "ab\U{7}\U{7}";
    assert !IsSpace(input[0]) && !IsSpace(input[|input| - 1]);
    assert LeadingSpaces(input) == 0;
    assert TrailingSpaces(input[0..]) == 0;
    assert input[0..][..|input| - 0] == input;
    NotContainsWithoutHead(input, "/O=");
  }
}
