/** The deployment domain check: the contents of deploy/domain.txt are
    trimmed the way JavaScript's String.prototype.trim does it, then
    rejected when empty, when they contain a quote character, or when they
    do not match ^[a-z0-9-]{5,50}$; otherwise the domain is accepted. */
module DeployDomain {

  /** What the script finds at deploy/domain.txt. */
  datatype DomainFile = Missing | Unreadable | Contents(text: string)

  /** The outcome; every case but Accepted exits with status 1. */
  datatype Verdict =
    | FileMissing
    | ReadFailed
    | Empty
    | HasQuotes(found: string)
    | BadFormat(found: string)
    | Accepted(domain: string)

  const MIN_DOMAIN_LENGTH: int := 5
  const MAX_DOMAIN_LENGTH: int := 50

  predicate AllWhitespace(s: string) {
    forall i :: 0 <= i < |s| ==> IsJsWhitespace(s[i])
  }

  /** The characters trim removes: ECMAScript WhiteSpace and LineTerminator. */
  predicate IsJsWhitespace(c: char) {
    || c == '\t' || c == '\n' || c == '\U{0B}' || c == '\U{0C}' || c == '\r' || c == ' '
    || c == '\U{A0}' || c == '\U{1680}'
    || ('\U{2000}' <= c <= '\U{200A}')
    || c == '\U{2028}' || c == '\U{2029}' || c == '\U{202F}' || c == '\U{205F}'
    || c == '\U{3000}' || c == '\U{FEFF}'
  }

  /** The number of whitespace characters `s` starts with. */
  function LeadingWhitespace(s: string): (n: nat)
    ensures n <= |s|
    ensures forall i :: 0 <= i < n ==> IsJsWhitespace(s[i])
    ensures n < |s| ==> !IsJsWhitespace(s[n])
  {
    if s != [] && IsJsWhitespace(s[0]) then 1 + LeadingWhitespace(s[1..]) else 0
  }

  /** The number of whitespace characters `s` ends with. */
  function TrailingWhitespace(s: string): (n: nat)
    ensures n <= |s|
    ensures forall i :: |s| - n <= i < |s| ==> IsJsWhitespace(s[i])
    ensures n < |s| ==> !IsJsWhitespace(s[|s| - n - 1])
  {
    if s != [] && IsJsWhitespace(s[|s| - 1]) then 1 + TrailingWhitespace(s[..|s| - 1]) else 0
  }

  /** Drops the leading whitespace. */
  function TrimStart(s: string): string {
    s[LeadingWhitespace(s)..]
  }

  /** Drops the trailing whitespace. */
  function TrimEnd(s: string): string {
    s[..|s| - TrailingWhitespace(s)]
  }

  function Trim(s: string): string {
    TrimEnd(TrimStart(s))
  }

  predicate IsQuote(c: char) {
    c == '"' || c == '\'' || c == '`'
  }

  predicate HasQuote(s: string) {
    exists i :: 0 <= i < |s| && IsQuote(s[i])
  }

  /** One character of the class [a-z0-9-]. */
  predicate IsDomainChar(c: char) {
    ('a' <= c <= 'z') || ('0' <= c <= '9') || c == '-'
  }

  /** The whole string matches ^[a-z0-9-]{5,50}$. */
  predicate MatchesDomainPattern(d: string) {
    && MIN_DOMAIN_LENGTH <= |d| <= MAX_DOMAIN_LENGTH
    && forall i :: 0 <= i < |d| ==> IsDomainChar(d[i])
  }

  /** validateDomain, with the file system reduced to what it returned.
      The empty and quote checks run first but only choose the message:
      exactly the trimmed contents that match the pattern are accepted. */
  function Validate(file: DomainFile): (r: Verdict)
    ensures r.Accepted? <==> file.Contents? && MatchesDomainPattern(Trim(file.text))
    ensures r.Accepted? ==> r.domain == Trim(file.text)
    ensures r == FileMissing <==> file.Missing?
    ensures r == ReadFailed <==> file.Unreadable?
    ensures r == Empty <==> file.Contents? && Trim(file.text) == ""
    ensures r.HasQuotes? <==> file.Contents? && Trim(file.text) != "" && HasQuote(Trim(file.text))
    ensures r.BadFormat? <==> file.Contents? && Trim(file.text) != "" && !HasQuote(Trim(file.text))
                              && !MatchesDomainPattern(Trim(file.text))
  {
    match file
    case Missing => FileMissing
    case Unreadable => ReadFailed
    case Contents(text) =>
      var domain := Trim(text);
      if domain == "" then Empty
      else if HasQuote(domain) then HasQuotes(domain)
      else if !MatchesDomainPattern(domain) then BadFormat(domain)
      else Accepted(domain)
  }

  /** An accepted domain is 5 to 50 characters of [a-z0-9-]: no whitespace,
      no quotes, nothing else. */
  lemma AcceptedDomainShape(file: DomainFile)
    requires Validate(file).Accepted?
    ensures var d := Validate(file).domain;
      && MIN_DOMAIN_LENGTH <= |d| <= MAX_DOMAIN_LENGTH
      && (forall i :: 0 <= i < |d| ==> IsDomainChar(d[i]) && !IsJsWhitespace(d[i]) && !IsQuote(d[i]))
  {
  }

  /** A rejection for quotes reports the trimmed contents, which do hold a
      quote and so could never have matched the pattern. */
  lemma QuoteRejectionIsSound(file: DomainFile)
    requires Validate(file).HasQuotes?
    ensures file.Contents? && Validate(file).found == Trim(file.text)
    ensures HasQuote(Trim(file.text)) && !MatchesDomainPattern(Trim(file.text))
  {
  }

  /** Only one count meets the three facts LeadingWhitespace promises. */
  lemma LeadingWhitespaceUnique(s: string, n: int)
    requires 0 <= n <= |s|
    requires forall i :: 0 <= i < n ==> IsJsWhitespace(s[i])
    requires n < |s| ==> !IsJsWhitespace(s[n])
    ensures LeadingWhitespace(s) == n
  {
    var m := LeadingWhitespace(s);
    if m < n {
      assert false;
    } else if n < m {
      assert false;
    }
  }

  /** Only one count meets the three facts TrailingWhitespace promises. */
  lemma TrailingWhitespaceUnique(s: string, n: int)
    requires 0 <= n <= |s|
    requires forall i :: |s| - n <= i < |s| ==> IsJsWhitespace(s[i])
    requires n < |s| ==> !IsJsWhitespace(s[|s| - n - 1])
    ensures TrailingWhitespace(s) == n
  {
    var m := TrailingWhitespace(s);
    if m < n {
      assert false;
    } else if n < m {
      assert false;
    }
  }

  /** Trimming twice is trimming once. */
  lemma TrimIdempotent(s: string)
    ensures Trim(Trim(s)) == Trim(s)
  {
    var v := TrimStart(s);
    var u := Trim(s);
    if u != [] {
      assert u[0] == v[0];
      LeadingWhitespaceUnique(u, 0);
      assert u[|u| - 1] == v[|u| - 1];
      TrailingWhitespaceUnique(u, 0);
    }
  }

  lemma TrimStartSkipsLeadingWhitespace(pre: string, x: string)
    requires AllWhitespace(pre)
    ensures TrimStart(pre + x) == TrimStart(x)
  {
    var s := pre + x;
    var n := LeadingWhitespace(x);
    assert forall i :: |pre| <= i < |s| ==> s[i] == x[i - |pre|];
    LeadingWhitespaceUnique(s, |pre| + n);
  }

  lemma TrimEndSkipsTrailingWhitespace(x: string, post: string)
    requires AllWhitespace(post)
    ensures TrimEnd(x + post) == TrimEnd(x)
  {
    var s := x + post;
    var n := TrailingWhitespace(x);
    assert forall i :: 0 <= i < |x| ==> s[i] == x[i];
    TrailingWhitespaceUnique(s, |post| + n);
  }

  lemma TrimIgnoresTrailingWhitespace(x: string, post: string)
    requires AllWhitespace(post)
    ensures Trim(x + post) == Trim(x)
  {
    var s := x + post;
    var n := LeadingWhitespace(x);
    if n == |x| {
      LeadingWhitespaceUnique(s, |s|);
    } else {
      LeadingWhitespaceUnique(s, n);
      assert TrimStart(s) == TrimStart(x) + post;
      TrimEndSkipsTrailingWhitespace(TrimStart(x), post);
    }
  }

  /** Whitespace around the domain in the file changes nothing: the verdict
      is the one for the bare contents. */
  lemma SurroundingWhitespaceIgnored(pre: string, text: string, post: string)
    requires AllWhitespace(pre) && AllWhitespace(post)
    ensures Trim(pre + text + post) == Trim(text)
    ensures Validate(Contents(pre + text + post)) == Validate(Contents(text))
  {
    assert pre + text + post == pre + (text + post);
    TrimStartSkipsLeadingWhitespace(pre, text + post);
    TrimIgnoresTrailingWhitespace(text, post);
  }
}
