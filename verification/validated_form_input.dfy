/** Per-field validation: the validation kinds, one recogniser per text
    pattern, and `ValidateFormat`, which turns a kind and the field's text into
    a verdict plus the error-mode callback it issues on failure. */
module ValidatedFormInput {
  import opened Options

  /** The validation kinds a validation data source can answer. */
  datatype Kind = NoValidation | NotBlank | Email | ZipCode | Phone | Date

  /** The raw value of a kind: its case name, passed as `errorType`. */
  function KindName(k: Kind): string
  {
    match k
    case NoValidation => "NoValidation"
    case NotBlank => "NotBlank"
    case Email => "Email"
    case ZipCode => "ZipCode"
    case Phone => "Phone"
    case Date => "Date"
  }

  lemma KindNameInjective(a: Kind, b: Kind)
    ensures KindName(a) == KindName(b) ==> a == b
  {
  }

  // ---------------------------------------------------------------------------
  // Character classes of the three patterns

  predicate IsDigit(c: char) { '0' <= c <= '9' }
  predicate IsLetter(c: char) { 'A' <= c <= 'Z' || 'a' <= c <= 'z' }

  /** `[A-Z0-9a-z._%+-]` */
  predicate IsLocalChar(c: char)
  {
    IsLetter(c) || IsDigit(c) || c == '.' || c == '_' || c == '%' || c == '+' || c == '-'
  }

  /** `[A-Za-z0-9.-]` */
  predicate IsDomainChar(c: char)
  {
    IsLetter(c) || IsDigit(c) || c == '.' || c == '-'
  }

  /** `[-. ]` */
  predicate IsSeparator(c: char) { c == '-' || c == '.' || c == ' ' }

  predicate AllLocal(s: string) { forall i :: 0 <= i < |s| ==> IsLocalChar(s[i]) }
  predicate AllDomain(s: string) { forall i :: 0 <= i < |s| ==> IsDomainChar(s[i]) }
  predicate AllLetters(s: string) { forall i :: 0 <= i < |s| ==> IsLetter(s[i]) }
  predicate AllDigits(s: string) { forall i :: 0 <= i < |s| ==> IsDigit(s[i]) }

  // ---------------------------------------------------------------------------
  // Searching a text for a character

  /** The position of the first occurrence of `c` in `s`, if any. */
  function FirstIndexOf(s: string, c: char): (r: Option<nat>)
    ensures r.Some? ==> r.value < |s| && s[r.value] == c && forall j :: 0 <= j < r.value ==> s[j] != c
    ensures r.None? ==> c !in s
  {
    if |s| == 0 then None
    else if s[0] == c then Some(0)
    else
      match FirstIndexOf(s[1..], c)
      case None => None
      case Some(i) => Some(i + 1)
  }

  /** The position of the last occurrence of `c` in `s`, if any. */
  function LastIndexOf(s: string, c: char): (r: Option<nat>)
    ensures r.Some? ==> r.value < |s| && s[r.value] == c && forall j :: r.value < j < |s| ==> s[j] != c
    ensures r.None? ==> c !in s
    decreases |s|
  {
    if |s| == 0 then None
    else if s[|s| - 1] == c then Some(|s| - 1)
    else
      var r := LastIndexOf(s[..|s| - 1], c);
      assert r.None? ==> s == s[..|s| - 1] + [s[|s| - 1]];
      r
  }

  // ---------------------------------------------------------------------------
  // Email: [A-Z0-9a-z._%+-]+@[A-Za-z0-9.-]+\.[A-Za-z]{2,4}, matched whole

  /** The three parts of an address between its `@` and its last `.`. */
  predicate EmailParts(local: string, domain: string, tld: string)
  {
    |local| > 0 && AllLocal(local) &&
    |domain| > 0 && AllDomain(domain) &&
    2 <= |tld| <= 4 && AllLetters(tld)
  }

  /** `s` is the concatenation the pattern describes, split as given. */
  predicate EmailShape(s: string, local: string, domain: string, tld: string)
  {
    s == local + "@" + domain + "." + tld && EmailParts(local, domain, tld)
  }

  /** The pattern's meaning: some split of `s` fits it. */
  ghost predicate EmailMatches(s: string)
  {
    exists local, domain, tld :: EmailShape(s, local, domain, tld)
  }

  /** A deterministic recogniser: no character class but the last allows `@`,
      so the address has exactly one `@`; the top-level domain has no `.`, so
      the separating `.` is the last one after the `@`. */
  predicate IsEmail(s: string)
  {
    match FirstIndexOf(s, '@')
    case None => false
    case Some(p) =>
      var rest := s[p + 1..];
      match LastIndexOf(rest, '.')
      case None => false
      case Some(q) => EmailParts(s[..p], rest[..q], rest[q + 1..])
  }

  /** The recogniser accepts exactly the texts the pattern matches. */
  lemma EmailRecogniserCorrect(s: string)
    ensures IsEmail(s) <==> EmailMatches(s)
  {
    if IsEmail(s) {
      var p := FirstIndexOf(s, '@').value;
      var rest := s[p + 1..];
      var q := LastIndexOf(rest, '.').value;
      assert s == s[..p] + "@" + rest[..q] + "." + rest[q + 1..];
      assert EmailShape(s, s[..p], rest[..q], rest[q + 1..]);
    }
    if EmailMatches(s) {
      var local, domain, tld :| EmailShape(s, local, domain, tld);
      EmailShapeRecognised(s, local, domain, tld);
    }
  }

  lemma EmailShapeRecognised(s: string, local: string, domain: string, tld: string)
    requires EmailShape(s, local, domain, tld)
    ensures IsEmail(s)
  {
    var p := |local|;
    var rest := s[p + 1..];
    AtFollowsLocalPart(s, local, domain + "." + tld);
    assert rest == domain + "." + tld;
    DotPrecedesTopLevelDomain(rest, domain, tld);
    assert s[..p] == local;
  }

  /** In `local + "@" + rest`, with no `@` in `local`, the first `@` is the one
      after `local`. */
  lemma AtFollowsLocalPart(s: string, local: string, rest: string)
    requires s == local + "@" + rest && AllLocal(local)
    ensures FirstIndexOf(s, '@') == Some(|local|)
  {
    assert s[|local|] == '@';
    forall j | 0 <= j < |local|
      ensures s[j] != '@'
    {
      assert s[j] == local[j];
      assert IsLocalChar(local[j]);
    }
  }

  /** In `domain + "." + tld`, with no `.` in `tld`, the last `.` is the one
      before `tld`. */
  lemma DotPrecedesTopLevelDomain(rest: string, domain: string, tld: string)
    requires rest == domain + "." + tld && AllLetters(tld)
    ensures LastIndexOf(rest, '.') == Some(|domain|)
    ensures rest[..|domain|] == domain && rest[|domain| + 1..] == tld
  {
    var q := |domain|;
    assert rest[q] == '.';
    forall j | q < j < |rest|
      ensures rest[j] != '.'
    {
      assert rest[j] == tld[j - q - 1];
      assert IsLetter(tld[j - q - 1]);
    }
  }

  lemma EmailExamples()
    ensures IsEmail("a@b.co")
    ensures !IsEmail("a@b")
  {
    EmailShapeRecognised("a@b.co", "a", "b", "co");
    assert FirstIndexOf("a@b", '@') == Some(1);
    assert "a@b"[2..] == "b";
  }

  // ---------------------------------------------------------------------------
  // ZipCode: ((0[1-9])|([1-8][0-9])|(9[0-8])|(2A)|(2B))[0-9]{3}, matched whole

  /** The two-character department prefix of a French postal code. */
  predicate IsDepartment(a: char, b: char)
  {
    (a == '0' && '1' <= b <= '9') ||
    ('1' <= a <= '8' && IsDigit(b)) ||
    (a == '9' && '0' <= b <= '8') ||
    (a == '2' && (b == 'A' || b == 'B'))
  }

  predicate IsZipCode(s: string)
  {
    |s| == 5 && IsDepartment(s[0], s[1]) && AllDigits(s[2..])
  }

  function DigitValue(c: char): int
    requires IsDigit(c)
  {
    c as int - '0' as int
  }

  /** A numeric prefix is a department exactly when it lies in 01..98; the
      only other prefixes are the two Corsican codes. */
  lemma ZipCodeByDepartmentNumber(s: string)
    ensures IsZipCode(s) <==>
      |s| == 5 && AllDigits(s[2..]) &&
      ((IsDigit(s[0]) && IsDigit(s[1]) && 1 <= 10 * DigitValue(s[0]) + DigitValue(s[1]) <= 98) ||
       s[..2] == "2A" || s[..2] == "2B")
  {
    if |s| == 5 {
      assert s[..2] == [s[0], s[1]];
    }
  }

  lemma ZipCodeExamples()
    ensures IsZipCode("75001") && IsZipCode("2A001")
    ensures !IsZipCode("99999") && !IsZipCode("00123")
  {
    assert AllDigits("75001"[2..]) by { assert "75001"[2..] == "001"; }
    assert AllDigits("2A001"[2..]) by { assert "2A001"[2..] == "001"; }
  }

  // ---------------------------------------------------------------------------
  // Phone: (0[1-9]([-. ]?[0-9]{2}){4}), matched whole

  /** `t` is exactly `n` groups, each an optional separator and two digits.
      A separator is not a digit, so whether a group starts with one is
      decided by its first character. */
  predicate Groups(t: string, n: nat)
    decreases n
  {
    if n == 0 then t == []
    else if |t| > 0 && IsSeparator(t[0]) then
      |t| >= 3 && IsDigit(t[1]) && IsDigit(t[2]) && Groups(t[3..], n - 1)
    else
      |t| >= 2 && IsDigit(t[0]) && IsDigit(t[1]) && Groups(t[2..], n - 1)
  }

  predicate IsPhone(s: string)
  {
    |s| >= 2 && s[0] == '0' && '1' <= s[1] <= '9' && Groups(s[2..], 4)
  }

  /** One `[-. ]?[0-9]{2}` group. */
  datatype PhoneGroup = PhoneGroup(separator: Option<char>, high: char, low: char)

  predicate ValidGroup(g: PhoneGroup)
  {
    (g.separator.Some? ==> IsSeparator(g.separator.value)) && IsDigit(g.high) && IsDigit(g.low)
  }

  function RenderGroup(g: PhoneGroup): string
  {
    (if g.separator.Some? then [g.separator.value] else []) + [g.high, g.low]
  }

  function RenderGroups(gs: seq<PhoneGroup>): string
  {
    if gs == [] then [] else RenderGroup(gs[0]) + RenderGroups(gs[1..])
  }

  /** Reads the groups back from a text `Groups` accepts. */
  function ParseGroups(t: string, n: nat): (gs: seq<PhoneGroup>)
    requires Groups(t, n)
    ensures |gs| == n
    decreases n
  {
    if n == 0 then []
    else if |t| > 0 && IsSeparator(t[0]) then
      [PhoneGroup(Some(t[0]), t[1], t[2])] + ParseGroups(t[3..], n - 1)
    else
      [PhoneGroup(None, t[0], t[1])] + ParseGroups(t[2..], n - 1)
  }

  /** Every rendering of valid groups is accepted. */
  lemma {:induction false} RenderedGroupsAccepted(gs: seq<PhoneGroup>)
    requires forall i :: 0 <= i < |gs| ==> ValidGroup(gs[i])
    ensures Groups(RenderGroups(gs), |gs|)
  {
    if gs != [] {
      RenderedGroupsAccepted(gs[1..]);
      var t := RenderGroups(gs);
      var g := gs[0];
      if g.separator.Some? {
        assert t[3..] == RenderGroups(gs[1..]);
      } else {
        assert t[2..] == RenderGroups(gs[1..]);
      }
    }
  }

  /** Every accepted text is the rendering of the valid groups read from it. */
  lemma {:induction false} ParsedGroupsRender(t: string, n: nat)
    requires Groups(t, n)
    ensures forall i :: 0 <= i < n ==> ValidGroup(ParseGroups(t, n)[i])
    ensures RenderGroups(ParseGroups(t, n)) == t
    decreases n
  {
    if n > 0 {
      var gs := ParseGroups(t, n);
      var width := if |t| > 0 && IsSeparator(t[0]) then 3 else 2;
      var g := gs[0];
      var tail := ParseGroups(t[width..], n - 1);
      assert gs == [g] + tail;
      ParsedGroupsRender(t[width..], n - 1);
      assert ValidGroup(g);
      assert RenderGroup(g) == t[..width];
      assert RenderGroups(gs) == RenderGroup(g) + RenderGroups(tail);
      assert t == t[..width] + t[width..];
      forall i | 0 < i < n
        ensures ValidGroup(gs[i])
      {
        assert gs[i] == tail[i - 1];
      }
    }
  }

  /** `n` groups take between two and three characters each. */
  lemma {:induction false} GroupsLength(t: string, n: nat)
    requires Groups(t, n)
    ensures 2 * n <= |t| <= 3 * n
    decreases n
  {
    if n > 0 {
      if |t| > 0 && IsSeparator(t[0]) {
        GroupsLength(t[3..], n - 1);
      } else {
        GroupsLength(t[2..], n - 1);
      }
    }
  }

  /** An accepted phone number has 10 to 14 characters. */
  lemma PhoneLength(s: string)
    requires IsPhone(s)
    ensures 10 <= |s| <= 14
  {
    GroupsLength(s[2..], 4);
  }

  lemma PhoneExamples()
    ensures IsPhone("0612345678") && IsPhone("06 12.34-56 78")
    ensures !IsPhone("0012345678") && !IsPhone("061234567")
  {
    assert "0612345678"[2..] == "12345678";
    assert "12345678"[2..] == "345678";
    assert "345678"[2..] == "5678";
    assert "5678"[2..] == "78";
    assert "78"[2..] == "";
    assert "06 12.34-56 78"[2..] == " 12.34-56 78";
    assert " 12.34-56 78"[3..] == ".34-56 78";
    assert ".34-56 78"[3..] == "-56 78";
    assert "-56 78"[3..] == " 78";
    assert " 78"[3..] == "";
    if IsPhone("061234567") {
      PhoneLength("061234567");
    }
  }

  // ---------------------------------------------------------------------------
  // The verdict

  /** Whether `text` passes the check of `kind`. The date check is the
      platform's `dd/MM/YYYY` date parser, given as `parsesDate`. */
  predicate Accepts(kind: Kind, text: string, parsesDate: string -> bool)
  {
    match kind
    case NoValidation => true
    case NotBlank => 0 < |text|
    case Email => IsEmail(text)
    case ZipCode => IsZipCode(text)
    case Date => parsesDate(text)
    case Phone => IsPhone(text)
  }

  /** What validation sees of an input: an identity, its text, the answer of
      its validation data source (`None` when it has none) and whether a
      validation delegate is set. */
  datatype Field = Field(id: nat, text: string, validationType: Option<Kind>, hasValidationDelegate: bool)

  /** The error-mode callback made to the validation delegate. */
  datatype ErrorEvent = DidEnterErrorMode(input: nat, errorType: string)

  /** The result of `validateFormat` and the callbacks it made, in order. */
  datatype Verdict = Verdict(valid: bool, callbacks: seq<ErrorEvent>)

  function ValidateFormat(f: Field, parsesDate: string -> bool): (v: Verdict)
    ensures f.validationType.None? ==> v == Verdict(true, [])
    ensures f.validationType == Some(NoValidation) ==> v == Verdict(true, [])
    ensures v.valid <==> f.validationType.None? || Accepts(f.validationType.value, f.text, parsesDate)
    ensures v.valid ==> v.callbacks == []
    ensures !v.valid ==> f.validationType.Some?
    ensures !v.valid ==> v.callbacks == (if f.hasValidationDelegate then [DidEnterErrorMode(f.id, KindName(f.validationType.value))] else [])
  {
    match f.validationType
    case None => Verdict(true, [])
    case Some(kind) =>
      if Accepts(kind, f.text, parsesDate) then Verdict(true, [])
      else if f.hasValidationDelegate then Verdict(false, [DidEnterErrorMode(f.id, KindName(kind))])
      else Verdict(false, [])
  }

  /** A validation makes at most one callback, and only when it fails. */
  lemma AtMostOneCallback(f: Field, parsesDate: string -> bool)
    ensures |ValidateFormat(f, parsesDate).callbacks| <= 1
    ensures ValidateFormat(f, parsesDate).callbacks != [] <==>
      !ValidateFormat(f, parsesDate).valid && f.hasValidationDelegate
  {
  }

  lemma NotBlankIff(f: Field, parsesDate: string -> bool)
    requires f.validationType == Some(NotBlank)
    ensures ValidateFormat(f, parsesDate).valid <==> |f.text| > 0
  {
  }
}
