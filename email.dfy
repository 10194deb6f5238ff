/** The address checks of the message model: isValidEmail, a 60-byte limit
    plus the pattern
      ^[a-zA-Z0-9._%+\-]+@[a-zA-Z0-9-]+(\.[a-zA-Z0-9-]+)*\.[a-zA-Z]{2,}$
    and ValidateEmailList, which applies it to every comma-separated piece. */
module Email {
  import opened GoText

  const MAX_EMAIL_BYTES: nat := 60

  predicate IsAsciiLetter(c: char) {
    'a' <= c <= 'z' || 'A' <= c <= 'Z'
  }

  predicate IsAsciiAlnum(c: char) {
    IsAsciiLetter(c) || '0' <= c <= '9'
  }

  /** The class [a-zA-Z0-9._%+\-] of the part before the '@'. */
  predicate IsLocalChar(c: char) {
    IsAsciiAlnum(c) || c == '.' || c == '_' || c == '%' || c == '+' || c == '-'
  }

  /** The class [a-zA-Z0-9-] of a domain label. */
  predicate IsLabelChar(c: char) {
    IsAsciiAlnum(c) || c == '-'
  }

  /** [a-zA-Z0-9._%+\-]+ */
  predicate IsLocalPart(s: string) {
    |s| >= 1 && forall k :: 0 <= k < |s| ==> IsLocalChar(s[k])
  }

  /** [a-zA-Z0-9-]+ */
  predicate IsLabel(s: string) {
    |s| >= 1 && forall k :: 0 <= k < |s| ==> IsLabelChar(s[k])
  }

  /** [a-zA-Z]{2,} */
  predicate IsTopLevel(s: string) {
    |s| >= 2 && forall k :: 0 <= k < |s| ==> IsAsciiLetter(s[k])
  }

  /** The pattern as its regular expression reads: some local part, an '@',
      one or more labels each followed by a '.', and a top-level name. */
  ghost predicate MatchesPattern(s: string) {
    exists local: string, labels: seq<string>, top: string ::
      IsLocalPart(local) && |labels| >= 1 && (forall i :: 0 <= i < |labels| ==> IsLabel(labels[i]))
      && IsTopLevel(top) && s == local + ['@'] + Join(labels + [top], ['.'])
  }

  /** What a domain after the '@' must be: dot-separated labels, at least two,
      the last of them a top-level name. */
  predicate IsDomain(d: string) {
    var labels := Split(d, '.');
    |labels| >= 2 && (forall i :: 0 <= i < |labels| ==> IsLabel(labels[i]))
    && IsTopLevel(labels[|labels| - 1])
  }

  /** A recognizer for the pattern: exactly one '@', a local part before it
      and a domain after it. */
  predicate MatchesRecognizer(s: string) {
    var halves := Split(s, '@');
    |halves| == 2 && IsLocalPart(halves[0]) && IsDomain(halves[1])
  }

  /** isValidEmail. */
  predicate IsValidEmail(s: string) {
    Utf8Len(s) <= MAX_EMAIL_BYTES && MatchesRecognizer(s)
  }

  lemma {:induction false} NotInJoin<T>(parts: seq<seq<T>>, sep: seq<T>, x: T)
    requires forall i :: 0 <= i < |parts| ==> x !in parts[i]
    requires x !in sep
    ensures x !in Join(parts, sep)
  {
    if |parts| > 1 {
      NotInJoin(parts[1..], sep, x);
    }
  }

  lemma JoinPair<T>(a: seq<T>, sep: T, b: seq<T>)
    ensures Join([a, b], [sep]) == a + [sep] + b
  {
    assert [a, b][1..] == [b];
  }

  /** Every string the recognizer accepts matches the pattern. */
  lemma RecognizerSound(s: string)
    requires MatchesRecognizer(s)
    ensures MatchesPattern(s)
  {
    var halves := Split(s, '@');
    var labels := Split(halves[1], '.');
    var init, top := labels[..|labels| - 1], labels[|labels| - 1];
    assert init + [top] == labels;
    SplitPieces(s, '@');
    SplitPieces(halves[1], '.');
    JoinPair(halves[0], '@', halves[1]);
    assert s == halves[0] + ['@'] + Join(init + [top], ['.']);
    forall i | 0 <= i < |init|
      ensures IsLabel(init[i])
    {
      assert init[i] == labels[i];
    }
  }

  lemma LabelsFree(all: seq<string>)
    requires forall i :: 0 <= i < |all| ==> IsLabel(all[i])
    ensures forall i :: 0 <= i < |all| ==> '.' !in all[i] && '@' !in all[i]
  {
    forall i | 0 <= i < |all|
      ensures '.' !in all[i] && '@' !in all[i]
    {
      assert forall k :: 0 <= k < |all[i]| ==> IsLabelChar(all[i][k]);
    }
  }

  /** A domain built from labels and a top-level name is a domain. */
  lemma DomainOfLabels(labels: seq<string>, top: string)
    requires |labels| >= 1
    requires forall i :: 0 <= i < |labels| ==> IsLabel(labels[i])
    requires IsTopLevel(top)
    ensures IsDomain(Join(labels + [top], ['.']))
    ensures '@' !in Join(labels + [top], ['.'])
  {
    var all := labels + [top];
    forall i | 0 <= i < |all|
      ensures IsLabel(all[i])
    {
      if i < |labels| { assert all[i] == labels[i]; } else { assert all[i] == top; }
    }
    LabelsFree(all);
    SplitJoin(all, '.');
    NotInJoin(all, ['.'], '@');
  }

  /** Every string the pattern matches, the recognizer accepts. */
  lemma RecognizerComplete(local: string, labels: seq<string>, top: string)
    requires IsLocalPart(local) && |labels| >= 1
    requires forall i :: 0 <= i < |labels| ==> IsLabel(labels[i])
    requires IsTopLevel(top)
    ensures MatchesRecognizer(local + ['@'] + Join(labels + [top], ['.']))
  {
    DomainOfLabels(labels, top);
    AddressOfParts(local, Join(labels + [top], ['.']));
  }

  lemma AddressOfParts(local: string, domain: string)
    requires IsLocalPart(local) && IsDomain(domain) && '@' !in domain
    ensures MatchesRecognizer(local + ['@'] + domain)
  {
    LocalFree(local);
    SplitOfSeparatorFree(domain, '@');
    SplitPrefix(local, '@', domain);
  }

  lemma LocalFree(local: string)
    requires IsLocalPart(local)
    ensures '@' !in local
  {
  }

  /** The recognizer accepts exactly the strings the pattern matches. */
  lemma RecognizerMatchesPattern(s: string)
    ensures MatchesRecognizer(s) <==> MatchesPattern(s)
  {
    if MatchesRecognizer(s) {
      RecognizerSound(s);
    }
    if MatchesPattern(s) {
      var local: string, labels: seq<string>, top: string :|
        IsLocalPart(local) && |labels| >= 1 && (forall i :: 0 <= i < |labels| ==> IsLabel(labels[i]))
        && IsTopLevel(top) && s == local + ['@'] + Join(labels + [top], ['.']);
      RecognizerComplete(local, labels, top);
    }
  }

  /** The address checks every piece of a comma-separated list must pass. */
  predicate AllValidEmails(emailList: string) {
    var pieces := Split(emailList, ',');
    forall i :: 0 <= i < |pieces| ==> IsValidEmail(TrimSpace(pieces[i]))
  }

  /** ValidateEmailList: false at the first piece that, trimmed, is not an
      address. */
  method ValidateEmailList(emailList: string) returns (ok: bool)
    ensures ok <==> AllValidEmails(emailList)
  {
    var emails := Split(emailList, ',');
    for i := 0 to |emails|
      invariant forall j :: 0 <= j < i ==> IsValidEmail(TrimSpace(emails[j]))
    {
      var email := TrimSpace(emails[i]);
      if !IsValidEmail(email) {
        return false;
      }
    }
    return true;
  }

  /** An empty list is rejected: its only piece is the empty string. */
  lemma EmptyListRejected()
    ensures !AllValidEmails("")
  {
    var pieces := Split("", ',');
    assert pieces == [""];
    assert TrimSpace(pieces[0]) == "";
    assert Split("", '@') == [""];
    assert !IsValidEmail(TrimSpace(pieces[0]));
  }

  /** A valid address holds nothing but letters, digits and "._%+-@"; in
      particular no comma and no white space. */
  lemma ValidEmailChars(s: string)
    requires IsValidEmail(s)
    ensures forall k :: 0 <= k < |s| ==> IsAsciiAlnum(s[k]) || s[k] in "._%+-@"
  {
    var halves := Split(s, '@');
    SplitPieces(s, '@');
    JoinPair(halves[0], '@', halves[1]);
    assert halves == [halves[0], halves[1]];
    var local, domain := halves[0], halves[1];
    assert s == local + ['@'] + domain;
    var labels := Split(domain, '.');
    SplitPieces(domain, '.');
    forall k | 0 <= k < |s|
      ensures IsAsciiAlnum(s[k]) || s[k] in "._%+-@"
    {
      if k < |local| {
        assert s[k] == local[k] && IsLocalChar(local[k]);
      } else if k > |local| {
        assert s[k] == domain[k - |local| - 1];
        JoinChars(labels, k - |local| - 1);
      }
    }
  }

  lemma {:induction false} JoinChars(parts: seq<string>, k: nat)
    requires forall i :: 0 <= i < |parts| ==> IsLabel(parts[i])
    requires k < |Join(parts, ['.'])|
    ensures IsLabelChar(Join(parts, ['.'])[k]) || Join(parts, ['.'])[k] == '.'
  {
    if |parts| > 1 {
      var j := Join(parts, ['.']);
      assert j == parts[0] + ['.'] + Join(parts[1..], ['.']);
      if k > |parts[0]| {
        JoinChars(parts[1..], k - |parts[0]| - 1);
      }
    }
  }

  /** A valid address is its own trimmed form and holds no comma. */
  lemma ValidEmailIsPiece(a: string)
    requires IsValidEmail(a)
    ensures ',' !in a && TrimSpace(a) == a
  {
    ValidEmailChars(a);
    assert forall k :: 0 <= k < |a| ==> !IsSpace(a[k]) && a[k] != ',';
    if a != [] {
      assert LeadingSpaces(a) == 0;
      assert TrailingSpaces(a[LeadingSpaces(a)..]) == 0;
    }
  }

  /** Valid addresses joined by commas form a list that is accepted. */
  lemma JoinedAddressesAccepted(addrs: seq<string>)
    requires |addrs| >= 1
    requires forall i :: 0 <= i < |addrs| ==> IsValidEmail(addrs[i])
    ensures AllValidEmails(Join(addrs, [',']))
  {
    forall i | 0 <= i < |addrs|
      ensures ',' !in addrs[i] && TrimSpace(addrs[i]) == addrs[i]
    {
      ValidEmailIsPiece(addrs[i]);
    }
    SplitJoin(addrs, ',');
  }
}
