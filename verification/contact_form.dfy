/**
 * The contact form's client-side rules: the e-mail test, the submit
 * handler's validation and its choice between opening the mail client and
 * posting JSON, and the "Open email client" button.
 */
module ContactForm {
  import opened Text
  import opened Optional

  // ---------------------------------------------------------------------
  // isEmail: an unanchored search for \S+@\S+\.\S+
  // ---------------------------------------------------------------------

  /**
   * The text w as a whole matches \S+@\S+\.\S+ with its '@' at a and the
   * '.' that the pattern names at d.
   */
  predicate SplitsAsEmail(w: string, a: int, d: int)
  {
    && 0 < a && a + 1 < d && d + 1 < |w|
    && w[a] == '@' && w[d] == '.'
    && AllNonSpace(w[..a]) && AllNonSpace(w[a + 1..d]) && AllNonSpace(w[d + 1..])
  }

  /** `RegExp.prototype.test` for an unanchored pattern: some piece of s matches. */
  ghost predicate RegexTest(s: string)
  {
    exists i, j, a, d :: 0 <= i <= j <= |s| && SplitsAsEmail(s[i..j], a, d)
  }

  /**
   * The shortest evidence of a match inside s: an '@' at a and a '.' at d,
   * a non-space just before the '@', only non-spaces between them, and a
   * non-space just after the '.'.
   */
  predicate MatchAt(s: string, a: int, d: int)
  {
    && 0 < a && a + 1 < d && d + 1 < |s|
    && s[a] == '@' && s[d] == '.'
    && NonSpace(s[a - 1]) && NonSpace(s[d + 1])
    && forall k :: a < k < d ==> NonSpace(s[k])
  }

  /** `isEmail`, computed by scanning s for an '@' and then for a '.' after it. */
  function IsEmail(s: string): bool
  {
    EmailFrom(s, 1)
  }

  /** Tries every candidate position of the '@' from a on. */
  function EmailFrom(s: string, a: nat): bool
    requires 1 <= a
    decreases |s| - a
  {
    if a >= |s| then false
    else (s[a] == '@' && NonSpace(s[a - 1]) && DotFrom(s, a, a + 1)) || EmailFrom(s, a + 1)
  }

  /**
   * Walks the run of non-spaces after the '@' at a, from k on, looking for
   * a '.' that is not the first character of the run and has a non-space
   * after it.
   */
  function DotFrom(s: string, a: nat, k: nat): bool
    requires a < k
    decreases |s| - k
  {
    if k + 1 >= |s| || IsSpace(s[k]) then false
    else if s[k] == '.' && a + 1 < k && NonSpace(s[k + 1]) then true
    else DotFrom(s, a, k + 1)
  }

  /** The '.' at d closes a match for the '@' at a, and s[k..d] are non-spaces. */
  predicate DotAt(s: string, a: int, k: int, d: int)
  {
    && k <= d && a + 1 < d && d + 1 < |s| && 0 <= k
    && s[d] == '.' && NonSpace(s[d + 1])
    && forall m :: k <= m < d ==> NonSpace(s[m])
  }

  lemma {:induction false} DotFromIff(s: string, a: nat, k: nat)
    requires a < k
    ensures DotFrom(s, a, k) <==> exists d :: DotAt(s, a, k, d)
    decreases |s| - k
  {
    // a witness needs s[k] and s[k + 1], and s[k] is either the '.' or part of the run
    assert forall d :: DotAt(s, a, k, d) ==> k + 1 < |s| && NonSpace(s[k]);
    if k + 1 >= |s| || IsSpace(s[k]) {
    } else if s[k] == '.' && a + 1 < k && NonSpace(s[k + 1]) {
      assert DotAt(s, a, k, k);
    } else {
      DotFromIff(s, a, k + 1);
      if d :| DotAt(s, a, k, d) {
        assert d != k;
        assert DotAt(s, a, k + 1, d);
      }
      var next := k + 1;
      if d :| DotAt(s, a, next, d) {
        assert DotAt(s, a, k, d);
      }
    }
  }

  lemma {:induction false} EmailFromIff(s: string, a: nat)
    requires 1 <= a
    ensures EmailFrom(s, a) <==> exists b, d :: a <= b && MatchAt(s, b, d)
    decreases |s| - a
  {
    if a < |s| {
      EmailFromIff(s, a + 1);
      DotFromIff(s, a, a + 1);
      if d :| MatchAt(s, a, d) {
        assert DotAt(s, a, a + 1, d);
      }
      var first := a + 1;
      if d :| DotAt(s, a, first, d) {
        if s[a] == '@' && NonSpace(s[a - 1]) {
          assert MatchAt(s, a, d);
        }
      }
      if b, d :| a <= b && MatchAt(s, b, d) {
        if b == a {
          assert DotAt(s, a, a + 1, d);
        } else {
          assert a + 1 <= b;
        }
      }
    }
  }

  /** The scan accepts exactly the strings that contain a match witness. */
  lemma IsEmailIff(s: string)
    ensures IsEmail(s) <==> exists a, d :: MatchAt(s, a, d)
  {
    EmailFromIff(s, 1);
  }

  /** A match witness inside the piece s[i..j] is one inside s, and back. */
  lemma MatchInPiece(s: string, i: int, j: int, a: int, d: int)
    requires 0 <= i <= j <= |s|
    ensures MatchAt(s[i..j], a, d) <==> i <= i + a - 1 && i + d + 1 < j && MatchAt(s, i + a, i + d)
  {
    var w := s[i..j];
    if MatchAt(w, a, d) {
      forall k | i + a < k < i + d ensures NonSpace(s[k]) {
        assert s[k] == w[k - i];
      }
    }
    if i <= i + a - 1 && i + d + 1 < j && MatchAt(s, i + a, i + d) {
      forall k | a < k < d ensures NonSpace(w[k]) {
        assert w[k] == s[k + i];
      }
    }
  }

  /** The scan is the regular-expression test: some piece of s matches the pattern. */
  lemma IsEmailIsRegexTest(s: string)
    ensures IsEmail(s) <==> RegexTest(s)
  {
    IsEmailIff(s);
    if a, d :| MatchAt(s, a, d) {
      var w := s[a - 1..d + 2];
      MatchInPiece(s, a - 1, d + 2, 1, d - a + 1);
      var mid := w[2..d - a + 1];
      forall m | 0 <= m < |mid| ensures NonSpace(mid[m]) {
        assert mid[m] == s[a + 1 + m];
      }
      assert SplitsAsEmail(w, 1, d - a + 1);
    }
    if i, j, a, d :| 0 <= i <= j <= |s| && SplitsAsEmail(s[i..j], a, d) {
      var w := s[i..j];
      assert w[..a][a - 1] == w[a - 1];
      assert w[d + 1..][0] == w[d + 1];
      forall k | a < k < d ensures NonSpace(w[k]) {
        assert w[a + 1..d][k - a - 1] == w[k];
      }
      assert MatchAt(w, a, d);
      MatchInPiece(s, i, j, a, d);
    }
  }

  /** Without an '@', or without a '.', there is no e-mail address. */
  lemma MissingPartRejected(s: string)
    requires '@' !in s || '.' !in s
    ensures !IsEmail(s)
  {
    IsEmailIff(s);
  }

  /** A match lies inside the trimmed part of s. */
  lemma MatchSurvivesTrim(s: string, a: int, d: int)
    requires MatchAt(s, a, d)
    ensures var i := TrimOffset(s); MatchAt(Trim(s), a - i, d - i)
  {
    var r := Trim(s);
    var i := TrimOffset(s);
    assert i <= a - 1 && d + 1 < i + |r|;
    MatchInPiece(s, i, i + |r|, a - i, d - i);
  }

  /** A match in the trimmed string is a match, shifted back, in s. */
  lemma MatchBeforeTrim(s: string, a: int, d: int)
    requires MatchAt(Trim(s), a, d)
    ensures var i := TrimOffset(s); MatchAt(s, i + a, i + d)
  {
    var r := Trim(s);
    var i := TrimOffset(s);
    MatchInPiece(s, i, i + |r|, a, d);
  }

  /** White space around the value never changes the verdict. */
  lemma IsEmailTrimmed(s: string)
    ensures IsEmail(Trim(s)) == IsEmail(s)
  {
    IsEmailIff(s);
    IsEmailIff(Trim(s));
    if a, d :| MatchAt(s, a, d) {
      MatchSurvivesTrim(s, a, d);
    }
    if a, d :| MatchAt(Trim(s), a, d) {
      MatchBeforeTrim(s, a, d);
    }
  }

  // ---------------------------------------------------------------------
  // The submit handler
  // ---------------------------------------------------------------------

  /** The form's fields as the user left them. */
  datatype Form = Form(
    name: string, company: string, email: string, phone: string,
    project: string, budget: string, date: string, consent: bool)

  /** The `data` object the handler builds: every text field trimmed except the date. */
  datatype Inquiry = Inquiry(
    name: string, company: string, email: string, phone: string,
    project: string, budget: string, date: string, consent: bool)

  /** What one submission does. */
  datatype Outcome =
    | Blocked(nameError: bool, emailError: bool)  // inline errors shown, nothing sent
    | OpenMail(subject: string, body: string)      // the mail client opened (before URI encoding)
    | PostJson(endpoint: string, inquiry: Inquiry) // the inquiry posted as JSON

  function Collect(f: Form): (data: Inquiry)
    ensures data.name == Trim(f.name) && data.company == Trim(f.company)
    ensures data.email == Trim(f.email) && data.phone == Trim(f.phone)
    ensures data.project == Trim(f.project) && data.budget == Trim(f.budget)
    ensures data.date == f.date && data.consent == f.consent
  {
    Inquiry(Trim(f.name), Trim(f.company), Trim(f.email), Trim(f.phone),
            Trim(f.project), Trim(f.budget), f.date, f.consent)
  }

  /** `form.getAttribute('action') || '#'`: a missing or empty action becomes "#". */
  function ResolveAction(attr: Option<string>): (action: string)
    ensures action != ""
    ensures attr.Some? && attr.value != "" ==> action == attr.value
    ensures attr.None? || attr.value == "" ==> action == "#"
  {
    if attr.Some? && attr.value != "" then attr.value else "#"
  }

  /** The mailto test, with `&&` binding tighter than `||`. */
  predicate UsesMailto(action: string, hasServer: bool)
  {
    action == "#" || action == "" || (action == "/contact" && !hasServer)
  }

  function MailSubject(data: Inquiry): string
  {
    "Stackly inquiry from " + data.name
  }

  function MailBody(data: Inquiry): string
  {
    "Name: " + data.name + "\nCompany: " + data.company + "\nEmail: " + data.email
      + "\nPhone: " + data.phone + "\nBudget: " + data.budget
      + "\nDesired delivery: " + data.date + "\n\nProject details:\n" + data.project
  }

  /**
   * The submit handler. `attr` is the form's action attribute and
   * `hasServer` whether `window._hasServer` is truthy.
   */
  function Submit(f: Form, attr: Option<string>, hasServer: bool): Outcome
  {
    var data := Collect(f);
    var nameError := data.name == "";
    var emailError := data.email == "" || !IsEmail(data.email);
    if nameError || emailError then Blocked(nameError, emailError)
    else
      var action := ResolveAction(attr);
      if UsesMailto(action, hasServer) then OpenMail(MailSubject(data), MailBody(data))
      else PostJson(action, data)
  }

  /**
   * Submission goes nowhere exactly when the name is blank or the e-mail is
   * not an address, and each of the two errors is raised on its own.
   */
  lemma SubmitBlocked(f: Form, attr: Option<string>, hasServer: bool)
    ensures var r := Submit(f, attr, hasServer);
      && (r.Blocked? <==> AllSpace(f.name) || !IsEmail(f.email))
      && (r.Blocked? ==> r.nameError == AllSpace(f.name) && r.emailError == !IsEmail(f.email))
  {
    TrimEmptyIff(f.name);
    TrimEmptyIff(f.email);
    IsEmailTrimmed(f.email);
    if Trim(f.email) == "" {
      MissingPartRejected(Trim(f.email));
    }
  }

  /**
   * A valid submission opens the mail client exactly when the action is
   * missing, empty, "#", or "/contact" without a server; any other action
   * is posted to, with the trimmed fields.
   */
  lemma SubmitRoute(f: Form, attr: Option<string>, hasServer: bool)
    requires !AllSpace(f.name) && IsEmail(f.email)
    ensures var r := Submit(f, attr, hasServer);
      && (r.OpenMail? <==>
            attr.None? || attr.value == "" || attr.value == "#"
            || (attr.value == "/contact" && !hasServer))
      && (r.OpenMail? ==> r.subject == "Stackly inquiry from " + Trim(f.name)
                          && r.body == MailBody(Collect(f)))
      && (r.PostJson? ==> attr.Some? && r.endpoint == attr.value && r.inquiry == Collect(f))
      && !r.Blocked?
  {
    SubmitBlocked(f, attr, hasServer);
  }

  /** The handler's `action === ''` alternative can never decide anything. */
  lemma EmptyActionUnreachable(attr: Option<string>, hasServer: bool)
    ensures UsesMailto(ResolveAction(attr), hasServer)
        <==> (var a := ResolveAction(attr); a == "#" || (a == "/contact" && !hasServer))
  {
  }

  // ---------------------------------------------------------------------
  // The "Open email client" button
  // ---------------------------------------------------------------------

  /** The trimmed name, or "Customer" when it is blank. */
  function SenderName(name: string): string
  {
    var n := Trim(name);
    if n == "" then "Customer" else n
  }

  /** The fixed text of the button's mail, before the name that signs it. */
  const ButtonGreeting := "Hello Stackly,\n\nI would like to enquire about... \n\nRegards,\n"

  /** The button opens the mail client, like the submit handler's fallback. */
  function MailtoButton(name: string): Outcome
  {
    var n := SenderName(name);
    OpenMail("Inquiry from " + n, ButtonGreeting + n)
  }

  /**
   * The button always opens the mail client and signs with a name:
   * "Customer" when the field is blank, and otherwise the field without
   * surrounding white space. The subject names the same sender.
   */
  lemma MailtoButtonName(name: string)
    ensures var m := MailtoButton(name); var n := SenderName(name);
      && m.OpenMail?
      && n != ""
      && (AllSpace(name) ==> n == "Customer")
      && (!AllSpace(name) ==> n == Trim(name) && NonSpace(n[0]) && NonSpace(n[|n| - 1]))
      && m.subject == "Inquiry from " + n
      && m.body == ButtonGreeting + n
      && |m.body| >= |n| && m.body[|m.body| - |n|..] == n
  {
    TrimEmptyIff(name);
  }
}
