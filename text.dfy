/** Character classes and string helpers used by the model validations:
    Rails' `blank?`, ASCII `downcase`/`upcase`, and the e-mail address grammar. */
module Text {

  /** `[[:space:]]` on a UTF-8 string: the Unicode White_Space characters. */
  predicate IsWhitespace(c: char) {
    || '\t' <= c <= '\r' || c == ' ' || c == '\U{0085}' || c == '\U{00A0}' || c == '\U{1680}'
    || '\U{2000}' <= c <= '\U{200A}' || c == '\U{2028}' || c == '\U{2029}' || c == '\U{202F}'
    || c == '\U{205F}' || c == '\U{3000}'
  }

  /** `blank?` on a string: empty, or nothing but whitespace. */
  predicate IsBlank(s: string) {
    forall c :: c in s ==> IsWhitespace(c)
  }

  predicate IsUpper(c: char) { 'A' <= c <= 'Z' }
  predicate IsLower(c: char) { 'a' <= c <= 'z' }
  predicate IsLetter(c: char) { IsUpper(c) || IsLower(c) }
  predicate IsDigit(c: char) { '0' <= c <= '9' }

  function LowerChar(c: char): (d: char)
    ensures !IsUpper(d)
    ensures IsLetter(c) <==> IsLetter(d)
    ensures !IsLetter(c) ==> d == c
  {
    if IsUpper(c) then (c as int + 32) as char else c
  }

  function UpperChar(c: char): (d: char)
    ensures !IsLower(d)
    ensures IsLetter(c) <==> IsLetter(d)
    ensures !IsLetter(c) ==> d == c
  {
    if IsLower(c) then (c as int - 32) as char else c
  }

  /** A string with no upper-case ASCII letter. */
  predicate IsLowerCase(s: string) {
    forall c :: c in s ==> !IsUpper(c)
  }

  /** Ruby's `String#downcase` on ASCII: every upper-case letter is mapped to
      its lower-case form, everything else is kept. */
  function Downcase(s: string): (r: string)
    ensures |r| == |s|
  {
    seq(|s|, i requires 0 <= i < |s| => LowerChar(s[i]))
  }

  /** Ruby's `String#upcase` on ASCII. */
  function Upcase(s: string): (r: string)
    ensures |r| == |s|
  {
    seq(|s|, i requires 0 <= i < |s| => UpperChar(s[i]))
  }

  lemma DowncaseIsLowerCase(s: string)
    ensures IsLowerCase(Downcase(s))
  {
    forall c | c in Downcase(s) ensures !IsUpper(c) {
      var i :| 0 <= i < |s| && Downcase(s)[i] == c;
    }
  }

  /** Down-casing leaves a string unchanged exactly when it is already lower-case. */
  lemma DowncaseFixedPoint(s: string)
    ensures Downcase(s) == s <==> IsLowerCase(s)
  {
    if IsLowerCase(s) {
      forall i | 0 <= i < |s| ensures Downcase(s)[i] == s[i] {
        assert s[i] in s;
      }
    } else {
      DowncaseIsLowerCase(s);
    }
  }

  lemma DowncaseIdempotent(s: string)
    ensures Downcase(Downcase(s)) == Downcase(s)
  {
    DowncaseIsLowerCase(s);
    DowncaseFixedPoint(Downcase(s));
  }

  /** Comparing down-cased forms ignores an intervening `upcase`. */
  lemma DowncaseUpcase(s: string)
    ensures Downcase(Upcase(s)) == Downcase(s)
  {
    forall i | 0 <= i < |s| ensures Downcase(Upcase(s))[i] == Downcase(s)[i] {
      var c := s[i];
      if IsLower(c) {
        assert UpperChar(c) as int == c as int - 32;
      } else if IsUpper(c) {
        assert LowerChar(c) as int == c as int + 32;
      }
    }
  }

  lemma DowncasePreservesBlank(s: string)
    ensures IsBlank(Downcase(s)) <==> IsBlank(s)
  {
    if IsBlank(s) {
      forall c | c in Downcase(s) ensures IsWhitespace(c) {
        var i :| 0 <= i < |s| && Downcase(s)[i] == c;
        assert s[i] in s;
      }
    } else {
      var c :| c in s && !IsWhitespace(c);
      var i :| 0 <= i < |s| && s[i] == c;
      assert Downcase(s)[i] in Downcase(s);
    }
  }

  // ---------------------------------------------------------------------
  // E-mail address grammar: a local part of word characters, `+`, `-` and
  // `.`; one `@`; a host of letters, digits, `-` and `.`; a final `.`; and
  // a top-level domain of letters only. Letters match in either case.

  predicate IsWordChar(c: char) { IsLetter(c) || IsDigit(c) || c == '_' }
  predicate IsLocalChar(c: char) { IsWordChar(c) || c == '+' || c == '-' || c == '.' }
  predicate IsDomainChar(c: char) { IsLetter(c) || IsDigit(c) || c == '-' || c == '.' }

  predicate IsLocalPart(s: string) { |s| > 0 && forall c :: c in s ==> IsLocalChar(c) }
  predicate IsDomainName(s: string) { |s| > 0 && forall c :: c in s ==> IsDomainChar(c) }
  predicate IsTopLevel(s: string) { |s| > 0 && forall c :: c in s ==> IsLetter(c) }

  /** Position of the first `c` in `s`, or -1. */
  function IndexOf(s: string, c: char): (r: int)
    ensures -1 <= r < |s|
    ensures r < 0 <==> c !in s
    ensures r >= 0 ==> s[r] == c && c !in s[..r]
  {
    if |s| == 0 then -1
    else if s[0] == c then 0
    else
      var k := IndexOf(s[1..], c);
      assert k >= 0 ==> s[1..][..k] == s[1..k + 1];
      if k < 0 then -1 else k + 1
  }

  /** Position of the last `c` in `s`, or -1. */
  function LastIndexOf(s: string, c: char): (r: int)
    ensures -1 <= r < |s|
    ensures r < 0 <==> c !in s
    ensures r >= 0 ==> s[r] == c && c !in s[r + 1..]
  {
    if |s| == 0 then -1
    else if s[|s| - 1] == c then |s| - 1
    else
      var k := LastIndexOf(s[..|s| - 1], c);
      assert k >= 0 ==> s[..|s| - 1][k + 1..] == s[k + 1..|s| - 1];
      assert s == s[..|s| - 1] + [s[|s| - 1]];
      k
  }

  /** The part after the `@`: a domain name, a dot, and a top-level domain. */
  predicate IsHost(h: string) {
    var dot := LastIndexOf(h, '.');
    dot >= 0 && IsDomainName(h[..dot]) && IsTopLevel(h[dot + 1..])
  }

  /** The address format check applied to a user's email. */
  predicate IsEmail(s: string) {
    var at := IndexOf(s, '@');
    at >= 0 && IsLocalPart(s[..at]) && IsHost(s[at + 1..])
  }

  /** The first occurrence is the only position with `c` and no `c` before it. */
  lemma IndexOfUnique(s: string, c: char, k: int)
    requires 0 <= k < |s| && s[k] == c && c !in s[..k]
    ensures IndexOf(s, c) == k
  {
  }

  lemma LastIndexOfUnique(s: string, c: char, k: int)
    requires 0 <= k < |s| && s[k] == c && c !in s[k + 1..]
    ensures LastIndexOf(s, c) == k
  {
  }

  lemma IndexOfSplit(a: string, c: char, b: string)
    requires c !in a
    ensures IndexOf(a + [c] + b, c) == |a|
  {
    var s := a + [c] + b;
    assert s[..|a|] == a;
    IndexOfUnique(s, c, |a|);
  }

  lemma LastIndexOfSplit(a: string, c: char, b: string)
    requires c !in b
    ensures LastIndexOf(a + [c] + b, c) == |a|
  {
    var s := a + [c] + b;
    assert s[|a| + 1..] == b;
    LastIndexOfUnique(s, c, |a|);
  }

  /** With no `@` in `local`, the check splits at the `@` after it. */
  lemma EmailAt(local: string, host: string)
    requires '@' !in local
    ensures IsEmail(local + "@" + host) <==> IsLocalPart(local) && IsHost(host)
  {
    var s := local + "@" + host;
    IndexOfSplit(local, '@', host);
    assert s == local + ['@'] + host;
    assert s[..|local|] == local;
    assert s[|local| + 1..] == host;
  }

  /** With no `.` in `tld`, the host splits at the `.` before it. */
  lemma HostDot(domain: string, tld: string)
    requires '.' !in tld
    ensures IsHost(domain + "." + tld) <==> IsDomainName(domain) && IsTopLevel(tld)
  {
    var h := domain + "." + tld;
    LastIndexOfSplit(domain, '.', tld);
    assert h == domain + ['.'] + tld;
    assert h[..|domain|] == domain;
    assert h[|domain| + 1..] == tld;
  }

  /** Every address built from the three parts passes the format check. */
  lemma {:induction false} EmailFromParts(local: string, domain: string, tld: string)
    requires IsLocalPart(local) && IsDomainName(domain) && IsTopLevel(tld)
    ensures IsEmail(local + "@" + domain + "." + tld)
  {
    var h := domain + "." + tld;
    assert '.' !in tld;
    HostDot(domain, tld);
    assert '@' !in local;
    EmailAt(local, h);
    AppendAssoc(local + "@", domain + ".", tld);
    AppendAssoc(local + "@", domain, ".");
  }

  /** Every address that passes the format check is built from three parts:
      the text before its first `@`, and the host after it cut at its last `.`. */
  lemma EmailHasParts(s: string) returns (local: string, domain: string, tld: string)
    requires IsEmail(s)
    ensures IsLocalPart(local) && IsDomainName(domain) && IsTopLevel(tld)
    ensures s == local + "@" + domain + "." + tld
  {
    var at := IndexOf(s, '@');
    EmailSplitAt(s, at);
    var h := s[at + 1..];
    var dot := LastIndexOf(h, '.');
    HostSplitAt(h, dot);
    local, domain, tld := s[..at], h[..dot], h[dot + 1..];
    SplitParts(s, at, dot);
  }

  /** `s` cut at an `@` at `at` and, after it, at a `.` at `dot`. */
  lemma SplitParts(s: string, at: int, dot: int)
    requires 0 <= at < |s| && s[at] == '@'
    requires 0 <= dot < |s| - at - 1 && s[at + 1..][dot] == '.'
    ensures s == s[..at] + "@" + s[at + 1..][..dot] + "." + s[at + 1..][dot + 1..]
  {
    var h := s[at + 1..];
    var local, domain, tld := s[..at], h[..dot], h[dot + 1..];
    assert s == local + "@" + h;
    assert h == domain + "." + tld;
    AppendAssoc(local + "@", domain + ".", tld);
    AppendAssoc(local + "@", domain, ".");
  }

  lemma AppendAssoc(a: string, b: string, c: string)
    ensures a + (b + c) == a + b + c
  {
  }

  // ---------------------------------------------------------------------
  // The format check ignores letter case, so a down-cased address is valid
  // exactly when the address as typed is.

  lemma DowncaseSlice(s: string, i: int, j: int)
    requires 0 <= i <= j <= |s|
    ensures Downcase(s)[i..j] == Downcase(s[i..j])
  {
  }

  lemma {:induction false} AllDowncase(s: string, P: char -> bool)
    requires forall c :: P(LowerChar(c)) == P(c)
    ensures (forall c :: c in Downcase(s) ==> P(c)) <==> (forall c :: c in s ==> P(c))
  {
    if forall c :: c in s ==> P(c) {
      forall c | c in Downcase(s) ensures P(c) {
        var i :| 0 <= i < |s| && Downcase(s)[i] == c;
        assert s[i] in s;
      }
    } else {
      var c :| c in s && !P(c);
      var i :| 0 <= i < |s| && s[i] == c;
      assert Downcase(s)[i] in Downcase(s);
    }
  }

  /** A character outside the letters is found at the same places after down-casing. */
  lemma DowncaseKeepsNonLetter(s: string, c: char)
    requires !IsLetter(c)
    ensures IndexOf(Downcase(s), c) == IndexOf(s, c)
    ensures LastIndexOf(Downcase(s), c) == LastIndexOf(s, c)
  {
    AllDowncase(s, x => x != c);
    if c in s {
      DowncaseKeepsFirst(s, c);
      DowncaseKeepsLast(s, c);
    }
  }

  lemma DowncaseKeepsFirst(s: string, c: char)
    requires !IsLetter(c) && c in s
    ensures IndexOf(Downcase(s), c) == IndexOf(s, c)
  {
    var i := IndexOf(s, c);
    DowncaseSlice(s, 0, i);
    AllDowncase(s[..i], x => x != c);
    IndexOfUnique(Downcase(s), c, i);
  }

  lemma DowncaseKeepsLast(s: string, c: char)
    requires !IsLetter(c) && c in s
    ensures LastIndexOf(Downcase(s), c) == LastIndexOf(s, c)
  {
    var j := LastIndexOf(s, c);
    DowncaseSlice(s, j + 1, |s|);
    AllDowncase(s[j + 1..], x => x != c);
    LastIndexOfUnique(Downcase(s), c, j);
  }

  lemma DowncaseParts(s: string)
    ensures IsLocalPart(Downcase(s)) <==> IsLocalPart(s)
    ensures IsDomainName(Downcase(s)) <==> IsDomainName(s)
    ensures IsTopLevel(Downcase(s)) <==> IsTopLevel(s)
  {
    AllDowncase(s, IsLocalChar);
    AllDowncase(s, IsDomainChar);
    AllDowncase(s, IsLetter);
  }

  lemma HostSplitAt(h: string, dot: int)
    requires dot == LastIndexOf(h, '.') && dot >= 0
    ensures IsHost(h) <==> IsDomainName(h[..dot]) && IsTopLevel(h[dot + 1..])
  {
  }

  lemma DowncaseHost(h: string)
    ensures IsHost(Downcase(h)) <==> IsHost(h)
  {
    var d := Downcase(h);
    DowncaseKeepsNonLetter(h, '.');
    var dot := LastIndexOf(h, '.');
    if dot >= 0 {
      var domain, tld := h[..dot], h[dot + 1..];
      DowncaseSlice(h, 0, dot);
      DowncaseSlice(h, dot + 1, |h|);
      assert d[..dot] == Downcase(domain) && d[dot + 1..] == Downcase(tld);
      DowncaseParts(domain);
      DowncaseParts(tld);
      HostSplitAt(h, dot);
      HostSplitAt(d, dot);
    }
  }

  lemma EmailSplitAt(s: string, at: int)
    requires at == IndexOf(s, '@') && at >= 0
    ensures IsEmail(s) <==> IsLocalPart(s[..at]) && IsHost(s[at + 1..])
  {
  }

  /** Case does not matter to the address format check. */
  lemma DowncaseEmail(s: string)
    ensures IsEmail(Downcase(s)) <==> IsEmail(s)
  {
    var d := Downcase(s);
    var at := IndexOf(s, '@');
    DowncaseKeepsNonLetter(s, '@');
    assert IndexOf(d, '@') == at;
    if at >= 0 {
      DowncaseSlice(s, 0, at);
      DowncaseSlice(s, at + 1, |s|);
      var local, host := s[..at], s[at + 1..];
      assert d[..at] == Downcase(local) && d[at + 1..] == Downcase(host);
      DowncaseParts(local);
      DowncaseHost(host);
      EmailSplitAt(s, at);
      EmailSplitAt(d, at);
    }
  }
}
