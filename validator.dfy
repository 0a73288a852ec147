/** Credential checks run before a user is created: the email pattern
    `^[a-zA-Z0-9._%+-]+@[a-zA-Z0-9.-]+\.[a-zA-Z]{2,}$` and the password
    strength rule. */
module Validator {
  import opened Wrappers
  import opened Domain
  import Strings

  // ---------------------------------------------------------------- email

  predicate IsAsciiLetter(c: char) { 'a' <= c <= 'z' || 'A' <= c <= 'Z' }

  predicate IsAsciiDigit(c: char) { '0' <= c <= '9' }

  /** The class `[a-zA-Z0-9._%+-]` of the local part. */
  predicate IsLocalChar(c: char)
  {
    IsAsciiLetter(c) || IsAsciiDigit(c) || c == '.' || c == '_' || c == '%' || c == '+' || c == '-'
  }

  /** The class `[a-zA-Z0-9.-]` of the domain. */
  predicate IsDomainChar(c: char) { IsAsciiLetter(c) || IsAsciiDigit(c) || c == '.' || c == '-' }

  /** `[a-zA-Z0-9._%+-]+` */
  predicate LocalPart(s: string) { |s| > 0 && forall i :: 0 <= i < |s| ==> IsLocalChar(s[i]) }

  /** `[a-zA-Z0-9.-]+` */
  predicate DomainPart(s: string) { |s| > 0 && forall i :: 0 <= i < |s| ==> IsDomainChar(s[i]) }

  /** `[a-zA-Z]{2,}` */
  predicate TopLevel(s: string) { |s| >= 2 && forall i :: 0 <= i < |s| ==> IsAsciiLetter(s[i]) }

  /** The language of the anchored pattern: `s` splits as
      local + "@" + domain + "." + top-level label. */
  ghost predicate EmailLanguage(s: string)
  {
    exists at, dot :: 0 <= at < dot < |s| && s[at] == '@' && s[dot] == '.'
      && LocalPart(s[..at]) && DomainPart(s[at + 1..dot]) && TopLevel(s[dot + 1..])
  }

  /** Decides the language: no class admits '@', so the split is at the
      first '@'; the top-level label admits no '.', so the domain ends at the
      last '.' after it. */
  predicate MatchesEmail(s: string)
  {
    var at := Strings.FirstIndexOf(s, '@');
    at < |s| && LocalPart(s[..at]) &&
    var rest := s[at + 1..];
    var dot := Strings.LastIndexOf(rest, '.');
    0 <= dot && DomainPart(rest[..dot]) && TopLevel(rest[dot + 1..])
  }

  lemma LocalPartHasNoAt(t: string)
    requires LocalPart(t)
    ensures '@' !in t
  {
  }

  lemma TopLevelHasNoDot(t: string)
    requires TopLevel(t)
    ensures '.' !in t && '@' !in t
  {
  }

  lemma DomainPartHasNoAt(t: string)
    requires DomainPart(t)
    ensures '@' !in t
  {
  }

  /** What MatchesEmail accepts is in the language. */
  lemma MatchesEmailSound(s: string)
    requires MatchesEmail(s)
    ensures EmailLanguage(s)
  {
    var at := Strings.FirstIndexOf(s, '@');
    var rest := s[at + 1..];
    var dot := Strings.LastIndexOf(rest, '.');
    var d := at + 1 + dot;
    assert s[at + 1..d] == rest[..dot];
    assert s[d + 1..] == rest[dot + 1..];
    assert s[at] == '@' && s[d] == '.';
  }

  /** Everything in the language is accepted by MatchesEmail. */
  lemma MatchesEmailComplete(s: string, a: nat, d: nat)
    requires a < d < |s| && s[a] == '@' && s[d] == '.'
    requires LocalPart(s[..a]) && DomainPart(s[a + 1..d]) && TopLevel(s[d + 1..])
    ensures MatchesEmail(s)
  {
    LocalPartHasNoAt(s[..a]);
    Strings.FirstIndexAt(s, '@', a);
    var rest := s[a + 1..];
    assert rest[d - a - 1] == '.';
    TopLevelHasNoDot(s[d + 1..]);
    assert rest[d - a..] == s[d + 1..];
    Strings.LastIndexAt(rest, '.', d - a - 1);
    assert rest[..d - a - 1] == s[a + 1..d];
  }

  lemma MatchesEmailDecides(s: string)
    ensures MatchesEmail(s) <==> EmailLanguage(s)
  {
    if MatchesEmail(s) { MatchesEmailSound(s); }
    if EmailLanguage(s) {
      var a, d :| 0 <= a < d < |s| && s[a] == '@' && s[d] == '.'
        && LocalPart(s[..a]) && DomainPart(s[a + 1..d]) && TopLevel(s[d + 1..]);
      MatchesEmailComplete(s, a, d);
    }
  }

  /** validator.ValidateEmail: Pass exactly on the pattern's language. */
  function ValidateEmail(email: string): (r: Outcome<Error>)
    ensures r == Pass <==> EmailLanguage(email)
    ensures r != Pass ==> r == Fail(InvalidEmailFormat)
  {
    MatchesEmailDecides(email);
    if MatchesEmail(email) then Pass else Fail(InvalidEmailFormat)
  }

  /** A split of the language's shape leaves exactly one '@'. */
  lemma {:induction false} SplitHasOneAt(s: string, at: nat, dot: nat)
    requires at < dot < |s| && s[at] == '@' && s[dot] == '.'
    requires LocalPart(s[..at]) && DomainPart(s[at + 1..dot]) && TopLevel(s[dot + 1..])
    ensures Strings.Count(s, '@') == 1
  {
    var local, rest := s[..at], s[at + 1..];
    LocalPartHasNoAt(local);
    DomainPartHasNoAt(s[at + 1..dot]);
    TopLevelHasNoDot(s[dot + 1..]);
    assert rest == s[at + 1..dot] + [s[dot]] + s[dot + 1..];
    assert '@' !in rest;
    assert s == local + ['@'] + rest;
    Strings.CountOnce(local, '@', rest);
  }

  /** No accepted address has a second '@': none of the three classes
      admits it. */
  lemma AcceptedEmailHasOneAt(s: string)
    requires ValidateEmail(s) == Pass
    ensures Strings.Count(s, '@') == 1
  {
    var at, dot :| 0 <= at < dot < |s| && s[at] == '@' && s[dot] == '.'
      && LocalPart(s[..at]) && DomainPart(s[at + 1..dot]) && TopLevel(s[dot + 1..]);
    SplitHasOneAt(s, at, dot);
  }

  lemma EmailExampleAccepted()
    ensures ValidateEmail("user@example.com") == Pass
  {
    var s := "user@example.com";
    var local, domain, top := s[..4], s[5..12], s[13..];
    assert local == "user" && domain == "example" && top == "com";
    assert LocalPart(local) && DomainPart(domain) && TopLevel(top);
    MatchesEmailComplete(s, 4, 12);
  }

  lemma EmailExamplesRejected()
    ensures ValidateEmail("bad-email") == Fail(InvalidEmailFormat)
    ensures ValidateEmail("a@b") == Fail(InvalidEmailFormat)
  {
    assert Strings.FirstIndexOf("bad-email", '@') == 9;
  }

  // ------------------------------------------------------------- password

  const MinPasswordLength: nat := 8

  predicate IsUpper(b: byte) { 65 <= b <= 90 }  // 'A'..'Z'

  predicate IsLower(b: byte) { 97 <= b <= 122 }  // 'a'..'z'

  predicate IsDigit(b: byte) { 48 <= b <= 57 }  // '0'..'9'

  ghost predicate HasUpper(p: seq<byte>) { exists i :: 0 <= i < |p| && IsUpper(p[i]) }

  ghost predicate HasLower(p: seq<byte>) { exists i :: 0 <= i < |p| && IsLower(p[i]) }

  ghost predicate HasDigit(p: seq<byte>) { exists i :: 0 <= i < |p| && IsDigit(p[i]) }

  /** The strength rule: the length error comes before any class check. */
  ghost function PasswordRule(p: seq<byte>): (verdict: Outcome<Error>)
  {
    if |p| < MinPasswordLength then Fail(PasswordTooShort)
    else if HasUpper(p) && HasLower(p) && HasDigit(p) then Pass
    else Fail(PasswordMissingClass)
  }

  /** validator.ValidatePassword: a length check, then one scan setting a
      flag per character class. */
  method ValidatePassword(password: seq<byte>) returns (r: Outcome<Error>)
    ensures r == PasswordRule(password)
  {
    if |password| < MinPasswordLength {
      return Fail(PasswordTooShort);
    }
    var hasUpper, hasLower, hasNumber := false, false, false;
    var i := 0;
    while i < |password|
      invariant 0 <= i <= |password|
      invariant hasUpper <==> HasUpper(password[..i])
      invariant hasLower <==> HasLower(password[..i])
      invariant hasNumber <==> HasDigit(password[..i])
    {
      var b := password[i];
      assert password[..i + 1] == password[..i] + [b];
      if IsUpper(b) {
        hasUpper := true;
      } else if IsLower(b) {
        hasLower := true;
      } else if IsDigit(b) {
        hasNumber := true;
      }
      i := i + 1;
    }
    assert password[..i] == password;
    if !hasUpper || !hasLower || !hasNumber {
      return Fail(PasswordMissingClass);
    }
    return Pass;
  }

  /** A byte outside the three classes never changes the verdict on a
      password that already has the minimum length. */
  lemma {:induction false} NeutralByteKeepsVerdict(p: seq<byte>, b: byte)
    requires |p| >= MinPasswordLength
    requires !IsUpper(b) && !IsLower(b) && !IsDigit(b)
    ensures PasswordRule(p + [b]) == PasswordRule(p)
  {
    var q := p + [b];
    assert forall i :: 0 <= i < |p| ==> q[i] == p[i];
    assert HasUpper(q) ==> HasUpper(p) by {
      if HasUpper(q) { var i :| 0 <= i < |q| && IsUpper(q[i]); assert i < |p|; }
    }
    assert HasLower(q) ==> HasLower(p) by {
      if HasLower(q) { var i :| 0 <= i < |q| && IsLower(q[i]); assert i < |p|; }
    }
    assert HasDigit(q) ==> HasDigit(p) by {
      if HasDigit(q) { var i :| 0 <= i < |q| && IsDigit(q[i]); assert i < |p|; }
    }
  }

  /** The ASCII bytes of a string literal. */
  function Ascii(s: string): (bytes: seq<byte>)
    requires forall i :: 0 <= i < |s| ==> s[i] < 128 as char
    ensures |bytes| == |s|
    ensures forall i :: 0 <= i < |s| ==> bytes[i] as int == s[i] as int
  {
    seq(|s|, i requires 0 <= i < |s| => s[i] as int as byte)
  }

  lemma PasswordExamples()
    ensures PasswordRule(Ascii("abc")) == Fail(PasswordTooShort)
    ensures PasswordRule(Ascii("alllowercase1")) == Fail(PasswordMissingClass)
    ensures PasswordRule(Ascii("Abcdefg1")) == Pass
  {
    var weak := Ascii("alllowercase1");
    assert !HasUpper(weak) by {
      forall i | 0 <= i < |weak| ensures !IsUpper(weak[i]) {
        assert "alllowercase1"[i] !in "ABCDEFGHIJKLMNOPQRSTUVWXYZ";
      }
    }
    var good := Ascii("Abcdefg1");
    assert IsUpper(good[0]) && IsLower(good[1]) && IsDigit(good[7]);
  }
}
