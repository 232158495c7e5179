/**
 * Contact-form validation: `validateContactForm` and `isValidEmail`.
 *
 * The form's four fields are trimmed and checked in a fixed order; each failed
 * check pushes one message onto an error list, and the form is valid exactly
 * when that list stays empty. The e-mail check is the regular expression
 * `^[^\s@]+@[^\s@]+\.[^\s@]+$`, applied to the UNtrimmed field.
 */
module ContactForm {
  import opened Wrappers
  import opened Text
  import opened Sequences

  // ----- isValidEmail -----

  /** A run that `[^\s@]+` would consume entirely (emptiness is checked apart). */
  predicate NoSpaceOrAt(t: string) {
    forall i :: 0 <= i < |t| ==> !IsSpace(t[i]) && t[i] != '@'
  }

  /** The domain has a '.' with at least one character on either side. */
  predicate HasInnerDot(d: string) {
    exists j :: 0 < j < |d| - 1 && d[j] == '.'
  }

  /** `isValidEmail(email)`: split at the only '@' and check both halves.
      An accepted address has at least five characters and no whitespace. */
  function IsValidEmail(s: string): (r: bool)
    ensures r ==> |s| >= 5
    ensures r ==> forall k :: 0 <= k < |s| ==> !IsSpace(s[k])
  {
    match FirstIndex(s, '@')
    case None => false
    case Some(i) =>
      if 0 < i && NoSpaceOrAt(s[..i]) && NoSpaceOrAt(s[i + 1..]) && HasInnerDot(s[i + 1..]) then
        SplitAddressHasNoSpace(s, i);
        true
      else
        false
  }

  /** An address cut at '@' into two runs free of whitespace holds none. */
  lemma SplitAddressHasNoSpace(s: string, i: nat)
    requires i < |s| && s[i] == '@' && NoSpaceOrAt(s[..i]) && NoSpaceOrAt(s[i + 1..])
    ensures forall k :: 0 <= k < |s| ==> !IsSpace(s[k])
  {
    forall k | 0 <= k < |s|
      ensures !IsSpace(s[k])
    {
      if k < i {
        assert s[..i][k] == s[k];
      } else if k > i {
        assert s[i + 1..][k - i - 1] == s[k];
      }
    }
  }

  /** What the regular expression `^[^\s@]+@[^\s@]+\.[^\s@]+$` accepts: some
      '@' at `i` and '.' at `j` cut `s` into three non-empty runs free of
      whitespace and '@'. */
  ghost predicate MatchesEmailPattern(s: string) {
    exists i, j :: 0 < i && i + 1 < j && j + 1 < |s| && s[i] == '@' && s[j] == '.' &&
      NoSpaceOrAt(s[..i]) && NoSpaceOrAt(s[i + 1..j]) && NoSpaceOrAt(s[j + 1..])
  }

  /** Any slice of a run free of whitespace and '@' is free of them too. */
  lemma NoSpaceOrAtSlice(t: string, a: nat, b: nat)
    requires NoSpaceOrAt(t) && a <= b <= |t|
    ensures NoSpaceOrAt(t[a..b])
  {
    forall i | 0 <= i < b - a
      ensures !IsSpace(t[a..b][i]) && t[a..b][i] != '@'
    {
      assert t[a..b][i] == t[a + i];
    }
  }

  /** `s[i] == '@'` is the first '@' when no '@' comes before it. */
  lemma FirstAt(s: string, i: nat)
    requires i < |s| && s[i] == '@' && '@' !in s[..i]
    ensures FirstIndex(s, '@') == Some(i)
  {
    assert s[i] in s;
  }

  /** Whatever the decision procedure accepts, the pattern matches. */
  lemma ValidEmailMatches(s: string)
    requires IsValidEmail(s)
    ensures MatchesEmailPattern(s)
  {
    var i := FirstIndex(s, '@').value;
    var d := s[i + 1..];
    var k :| 0 < k < |d| - 1 && d[k] == '.';
    var j := i + 1 + k;
    NoSpaceOrAtSlice(d, 0, k);
    NoSpaceOrAtSlice(d, k + 1, |d|);
    assert s[i + 1..j] == d[..k];
    assert s[j + 1..] == d[k + 1..];
    assert s[j] == '.';
  }

  /** Whatever the pattern matches, the decision procedure accepts. */
  lemma MatchingEmailValid(s: string)
    requires MatchesEmailPattern(s)
    ensures IsValidEmail(s)
  {
    var i, j :| 0 < i && i + 1 < j && j + 1 < |s| && s[i] == '@' && s[j] == '.' &&
      NoSpaceOrAt(s[..i]) && NoSpaceOrAt(s[i + 1..j]) && NoSpaceOrAt(s[j + 1..]);
    AtSplitsAddress(s, i, j);
  }

  /** The decision procedure on an address split at `i` and `j`. */
  lemma AtSplitsAddress(s: string, i: nat, j: nat)
    requires 0 < i && i + 1 < j && j + 1 < |s| && s[i] == '@' && s[j] == '.'
    requires NoSpaceOrAt(s[..i]) && NoSpaceOrAt(s[i + 1..j]) && NoSpaceOrAt(s[j + 1..])
    ensures IsValidEmail(s)
  {
    assert '@' !in s[..i] by {
      forall m | 0 <= m < i
        ensures s[..i][m] != '@'
      {
      }
    }
    FirstAt(s, i);
    var d := s[i + 1..];
    forall m | 0 <= m < |d|
      ensures !IsSpace(d[m]) && d[m] != '@'
    {
      if i + 1 + m < j {
        assert d[m] == s[i + 1..j][m];
      } else if i + 1 + m > j {
        assert d[m] == s[j + 1..][m - (j - i)];
      } else {
        assert d[m] == '.';
      }
    }
    assert d[j - i - 1] == '.';
  }

  /** The decision procedure accepts exactly the strings the pattern matches. */
  lemma IsValidEmailMatchesPattern(s: string)
    ensures IsValidEmail(s) <==> MatchesEmailPattern(s)
  {
    if IsValidEmail(s) {
      ValidEmailMatches(s);
    }
    if MatchesEmailPattern(s) {
      MatchingEmailValid(s);
    }
  }

  /** An address is a local part, one '@', and a domain whose inner '.'
      has text on both sides; neither part holds whitespace or '@'. */
  lemma IsValidEmailSplit(s: string)
    ensures IsValidEmail(s) <==>
      exists k :: 0 < k < |s| - 1 && s[k] == '@' && NoSpaceOrAt(s[..k]) &&
        NoSpaceOrAt(s[k + 1..]) && HasInnerDot(s[k + 1..])
  {
    if exists k :: 0 < k < |s| - 1 && s[k] == '@' && NoSpaceOrAt(s[..k]) &&
        NoSpaceOrAt(s[k + 1..]) && HasInnerDot(s[k + 1..]) {
      var k :| 0 < k < |s| - 1 && s[k] == '@' && NoSpaceOrAt(s[..k]) &&
        NoSpaceOrAt(s[k + 1..]) && HasInnerDot(s[k + 1..]);
      assert s[..k][0] != '@';
      assert '@' !in s[..k] by {
        forall m | 0 <= m < k
          ensures s[..k][m] != '@'
        {
        }
      }
      FirstAt(s, k);
    }
  }

  /** "a@b.co" is accepted. */
  lemma AcceptsSimpleAddress()
    ensures IsValidEmail("a@b.co")
  {
    var s := "a@b.co";
    assert s[..1] == "a" && s[2..] == "b.co";
    assert '@' !in s[..1];
    FirstAt(s, 1);
    assert s[2..][1] == '.';
  }

  /** "a@b", "a b@c.com" and "" are rejected. */
  lemma RejectsMalformedAddresses()
    ensures !IsValidEmail("a@b")
    ensures !IsValidEmail("a b@c.com")
    ensures !IsValidEmail("")
  {
    assert "a@b"[..1] == "a";
    FirstAt("a@b", 1);
    var t := "a b@c.com";
    assert t[..3] == "a b";
    assert '@' !in t[..3];
    FirstAt(t, 3);
    assert t[..3][1] == ' ';
  }

  /** A valid address is never blank, so "Email is required" never comes
      without "Please enter a valid email". */
  lemma ValidEmailNotBlank(s: string)
    requires IsValidEmail(s)
    ensures !Blank(s)
  {
    BlankIffAllSpace(s);
    var i := FirstIndex(s, '@').value;
    assert !IsSpace(s[i]);
  }

  /** Whitespace around an otherwise valid address still fails the check,
      because the pattern is applied to the untrimmed field. */
  lemma PaddedEmailRejected(s: string)
    requires s != [] && IsSpace(s[0])
    ensures !IsValidEmail(s)
  {
    match FirstIndex(s, '@')
    case None =>
    case Some(i) =>
      if 0 < i {
        assert s[..i][0] == s[0];
      }
  }

  // ----- validateContactForm -----

  /** The form's fields, as read by `Object.fromEntries(new FormData(form))`. */
  datatype ContactData = ContactData(name: string, email: string, subject: string, message: string)

  /** One entry of the error list, in the order the checks run. */
  datatype FormError = NameRequired | EmailRequired | EmailInvalid | SubjectRequired | MessageRequired
  {
    /** The text pushed onto `errors`, never empty. */
    function Text(): (t: string)
      ensures t != []
    {
      match this
      case NameRequired => "Name is required"
      case EmailRequired => "Email is required"
      case EmailInvalid => "Please enter a valid email"
      case SubjectRequired => "Subject is required"
      case MessageRequired => "Message is required"
    }

    /** Position of the check in the handler. */
    function Rank(): nat {
      match this
      case NameRequired => 0
      case EmailRequired => 1
      case EmailInvalid => 2
      case SubjectRequired => 3
      case MessageRequired => 4
    }
  }

  /** Whether check `e` fails on `d`. */
  predicate Fails(e: FormError, d: ContactData) {
    match e
    case NameRequired => Blank(d.name)
    case EmailRequired => Blank(d.email)
    case EmailInvalid => !IsValidEmail(d.email)
    case SubjectRequired => Blank(d.subject)
    case MessageRequired => Blank(d.message)
  }

  /** The check that runs in position `k` (the inverse of `Rank`). */
  function CheckAt(k: nat): (e: FormError)
    requires k < 5
    ensures e.Rank() == k
  {
    if k == 0 then NameRequired
    else if k == 1 then EmailRequired
    else if k == 2 then EmailInvalid
    else if k == 3 then SubjectRequired
    else MessageRequired
  }

  /** The error list after the first `k` checks have run. */
  function ErrorsAfter(d: ContactData, k: nat): seq<FormError>
    requires k <= 5
  {
    if k == 0 then []
    else ErrorsAfter(d, k - 1) + (if Fails(CheckAt(k - 1), d) then [CheckAt(k - 1)] else [])
  }

  /** The error list `validateContactForm` builds. */
  function Errors(d: ContactData): seq<FormError> {
    ErrorsAfter(d, 5)
  }

  /** Strictly increasing check order: no repeats, nothing out of turn. */
  predicate InCheckOrder(es: seq<FormError>) {
    forall i, j :: 0 <= i < j < |es| ==> es[i].Rank() < es[j].Rank()
  }

  /** After `k` checks the list holds exactly the failed checks among the
      first `k`, each once, in check order. */
  lemma {:induction false} ErrorsAfterSound(d: ContactData, k: nat)
    requires k <= 5
    ensures forall e :: e in ErrorsAfter(d, k) <==> e.Rank() < k && Fails(e, d)
    ensures InCheckOrder(ErrorsAfter(d, k))
  {
    if k > 0 {
      ErrorsAfterSound(d, k - 1);
      var init := ErrorsAfter(d, k - 1);
      var c := CheckAt(k - 1);
      var tail := if Fails(c, d) then [c] else [];
      assert ErrorsAfter(d, k) == init + tail;
      forall e
        ensures e in ErrorsAfter(d, k) <==> e.Rank() < k && Fails(e, d)
      {
        assert e in init + tail <==> e in init || e in tail;
        if e.Rank() == k - 1 {
          assert e == c;
        }
      }
      forall i | 0 <= i < |init|
        ensures init[i].Rank() < k - 1
      {
        assert init[i] in init;
      }
    }
  }

  /** The error list holds every failed check and nothing else. */
  lemma ErrorsAreFailedChecks(d: ContactData)
    ensures forall e :: e in Errors(d) <==> Fails(e, d)
    ensures InCheckOrder(Errors(d))
  {
    ErrorsAfterSound(d, 5);
  }

  /** `errors.join(', ')` over the messages: empty exactly for an empty
      list, and starting with the first message otherwise. */
  function JoinTexts(es: seq<FormError>): (r: string)
    ensures r == [] <==> es == []
    ensures es != [] ==> |es[0].Text()| <= |r| && r[..|es[0].Text()|] == es[0].Text()
  {
    if es == [] then ""
    else if |es| == 1 then es[0].Text()
    else es[0].Text() + ", " + JoinTexts(es[1..])
  }

  /** No message holds a comma, so the joined text holds exactly one comma
      between each two messages, and the list's length can be read back. */
  lemma {:induction false} JoinedCommaCount(es: seq<FormError>)
    requires es != []
    ensures multiset(JoinTexts(es))[','] == |es| - 1
  {
    var t := es[0].Text();
    assert ',' !in t;
    assert multiset(t)[','] == 0;
    if |es| > 1 {
      JoinedCommaCount(es[1..]);
      assert JoinTexts(es) == t + ", " + JoinTexts(es[1..]);
      assert multiset(", ")[','] == 1;
    }
  }

  /** `validateContactForm(data)`: builds the error list check by check,
      reports it as one error notification when it is not empty, and answers
      whether the form may be submitted. */
  method ValidateContactForm(d: ContactData) returns (valid: bool, errors: seq<FormError>, notice: Option<string>)
    ensures errors == Errors(d)
    ensures valid <==> errors == []
    ensures notice == if valid then None else Some(JoinTexts(errors))
  {
    errors := [];
    if Blank(d.name) { errors := errors + [NameRequired]; }
    assert errors == ErrorsAfter(d, 1);
    if Blank(d.email) { errors := errors + [EmailRequired]; }
    assert errors == ErrorsAfter(d, 2);
    if !IsValidEmail(d.email) { errors := errors + [EmailInvalid]; }
    assert errors == ErrorsAfter(d, 3);
    if Blank(d.subject) { errors := errors + [SubjectRequired]; }
    assert errors == ErrorsAfter(d, 4);
    if Blank(d.message) { errors := errors + [MessageRequired]; }
    assert errors == ErrorsAfter(d, 5);
    if |errors| > 0 {
      notice := Some(JoinTexts(errors));
      valid := false;
      return;
    }
    notice := None;
    valid := true;
  }

  /** The form passes exactly when every field has non-space text and the
      e-mail matches the pattern. */
  lemma ValidIff(d: ContactData)
    ensures Errors(d) == [] <==>
      !AllSpace(d.name) && !AllSpace(d.subject) && !AllSpace(d.message) && MatchesEmailPattern(d.email)
  {
    ErrorsAreFailedChecks(d);
    BlankIffAllSpace(d.name);
    BlankIffAllSpace(d.subject);
    BlankIffAllSpace(d.message);
    IsValidEmailMatchesPattern(d.email);
    if IsValidEmail(d.email) {
      ValidEmailNotBlank(d.email);
    }
    if Errors(d) != [] {
      assert Fails(Errors(d)[0], d);
    } else {
      assert !Fails(NameRequired, d) && !Fails(EmailInvalid, d);
      assert !Fails(SubjectRequired, d) && !Fails(MessageRequired, d);
    }
  }

  /** A missing e-mail is reported twice: as missing and as malformed. */
  lemma BlankEmailReportedTwice(d: ContactData)
    requires AllSpace(d.email)
    ensures EmailRequired in Errors(d) && EmailInvalid in Errors(d)
  {
    ErrorsAreFailedChecks(d);
    BlankIffAllSpace(d.email);
    if IsValidEmail(d.email) {
      ValidEmailNotBlank(d.email);
    }
  }

  /** "Email is required" never comes without "Please enter a valid email". */
  lemma EmailRequiredImpliesInvalid(d: ContactData)
    ensures EmailRequired in Errors(d) ==> EmailInvalid in Errors(d)
  {
    ErrorsAreFailedChecks(d);
    if IsValidEmail(d.email) {
      ValidEmailNotBlank(d.email);
    }
  }

  /** With every field empty or whitespace-only the list holds all five
      messages, in order, and the notification reads them joined by ", ". */
  lemma AllBlankGivesFiveErrors(d: ContactData)
    requires AllSpace(d.name) && AllSpace(d.email) && AllSpace(d.subject) && AllSpace(d.message)
    ensures Errors(d) == [NameRequired, EmailRequired, EmailInvalid, SubjectRequired, MessageRequired]
    ensures JoinTexts(Errors(d)) ==
      "Name is required" + ", " + ("Email is required" + ", " + ("Please enter a valid email" + ", " +
        ("Subject is required" + ", " + "Message is required")))
  {
    BlankIffAllSpace(d.name);
    BlankIffAllSpace(d.subject);
    BlankIffAllSpace(d.message);
    BlankIffAllSpace(d.email);
    if IsValidEmail(d.email) {
      ValidEmailNotBlank(d.email);
    }
    assert ErrorsAfter(d, 1) == [NameRequired];
    assert ErrorsAfter(d, 2) == [NameRequired, EmailRequired];
    assert ErrorsAfter(d, 3) == [NameRequired, EmailRequired, EmailInvalid];
    assert ErrorsAfter(d, 4) == [NameRequired, EmailRequired, EmailInvalid, SubjectRequired];
    AllErrorsText();
  }

  /** The notification for all five errors: the five messages joined by
      ", ", in check order. */
  lemma AllErrorsText()
    ensures JoinTexts([NameRequired, EmailRequired, EmailInvalid, SubjectRequired, MessageRequired]) ==
      "Name is required" + ", " + ("Email is required" + ", " + ("Please enter a valid email" + ", " +
        ("Subject is required" + ", " + "Message is required")))
  {
    var es := [NameRequired, EmailRequired, EmailInvalid, SubjectRequired, MessageRequired];
    assert es[1..][1..] == es[2..];
    assert es[2..][1..] == es[3..];
    assert es[3..][1..] == es[4..];
  }
}
