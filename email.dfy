/** The contact form's checks: every field filled in, and the address accepted
    by `isValidEmail`, which tests the regular expression
    `^[^\s@]+@[^\s@]+\.[^\s@]+$`. */
module Email {
  import opened Sequences

  /** The class `\s` of ECMAScript regular expressions: the WhiteSpace and
      LineTerminator code points (tab, line feed, vertical tab, form feed,
      carriage return, space, no-break space, ogham space mark, the spaces
      U+2000 to U+200A, line and paragraph separator, narrow no-break space,
      medium mathematical space, ideographic space, byte order mark). */
  predicate IsRegexSpace(c: char)
  {
    var n := c as int;
    (0x09 <= n <= 0x0D) || n == 0x20 || n == 0xA0 || n == 0x1680
    || (0x2000 <= n <= 0x200A) || n == 0x2028 || n == 0x2029
    || n == 0x202F || n == 0x205F || n == 0x3000 || n == 0xFEFF
  }

  /** A character of the class `[^\s@]`. */
  predicate Plain(c: char)
  {
    c != '@' && !IsRegexSpace(c)
  }

  predicate AllPlain(s: string)
  {
    forall i :: 0 <= i < |s| ==> Plain(s[i])
  }

  /** `s` splits as local `@` head `.` tail, each part a non-empty run of `[^\s@]`,
      with the `@` at index `at` and the `.` at index `dot`. */
  predicate EmailSplit(s: string, at: int, dot: int)
  {
    && 0 < at && at + 1 < dot && dot + 1 < |s|
    && s[at] == '@' && s[dot] == '.'
    && AllPlain(s[..at]) && AllPlain(s[at + 1..dot]) && AllPlain(s[dot + 1..])
  }

  /** What the regular expression matches, read off its three anchored runs. */
  ghost predicate MatchesEmailRegex(s: string)
  {
    exists at, dot :: EmailSplit(s, at, dot)
  }

  /** A `.` with at least one character on each side. */
  predicate HasInnerDot(d: string)
  {
    exists k :: 0 < k < |d| - 1 && d[k] == '.'
  }

  /** `isValidEmail(email)`, decided by one scan: a non-empty local part before
      the first `@`, and a domain after it free of `@` and white space that
      has an inner dot. */
  predicate IsValidEmail(s: string)
  {
    var at := IndexOf(s, '@');
    && 0 < at < |s|
    && AllPlain(s[..at])
    && AllPlain(s[at + 1..])
    && HasInnerDot(s[at + 1..])
  }

  lemma ValidEmailSplits(s: string)
    requires IsValidEmail(s)
    ensures MatchesEmailRegex(s)
  {
    var at := IndexOf(s, '@');
    var d := s[at + 1..];
    var k :| 0 < k < |d| - 1 && d[k] == '.';
    var dot := at + 1 + k;
    assert s[at + 1..dot] == d[..k];
    assert s[dot + 1..] == d[k + 1..];
    assert EmailSplit(s, at, dot);
  }

  lemma SplitEmailIsValid(s: string, at: int, dot: int)
    requires EmailSplit(s, at, dot)
    ensures IsValidEmail(s)
  {
    assert IndexOf(s, '@') == at;
    var d := s[at + 1..];
    forall i | 0 <= i < |d|
      ensures Plain(d[i])
    {
      var j := at + 1 + i;
      if j < dot {
        assert d[i] == s[at + 1..dot][i];
      } else if j > dot {
        assert d[i] == s[dot + 1..][j - dot - 1];
      }
    }
    assert d[dot - at - 1] == '.';
  }

  /** The scan accepts exactly the strings the regular expression matches. */
  lemma IsValidEmailIffRegex(s: string)
    ensures IsValidEmail(s) <==> MatchesEmailRegex(s)
  {
    if IsValidEmail(s) {
      ValidEmailSplits(s);
    }
    if MatchesEmailRegex(s) {
      var at, dot :| EmailSplit(s, at, dot);
      SplitEmailIsValid(s, at, dot);
    }
  }

  /** An accepted address has exactly one `@` and no white space at all. */
  lemma ValidEmailShape(s: string)
    requires IsValidEmail(s)
    ensures multiset(s)['@'] == 1
    ensures forall i :: 0 <= i < |s| ==> !IsRegexSpace(s[i])
  {
    var at := IndexOf(s, '@');
    var local, domain := s[..at], s[at + 1..];
    assert s == local + [s[at]] + domain;
    assert '@' !in local;
    assert '@' !in domain;
    assert multiset(s) == multiset(local) + multiset{'@'} + multiset(domain);
    forall i | 0 <= i < |s|
      ensures !IsRegexSpace(s[i])
    {
      if i < at {
        assert s[i] == local[i];
      } else if i > at {
        assert s[i] == domain[i - at - 1];
      }
    }
  }

  /** The notification the contact form's submit handler shows. */
  datatype Notice = FillInAllFields | InvalidEmailAddress | MessageSent

  /** Its text and its kind (`'error'` or `'success'`). */
  function NoticeText(n: Notice): (string, string)
  {
    match n
    case FillInAllFields => ("Please fill in all fields", "error")
    case InvalidEmailAddress => ("Please enter a valid email address", "error")
    case MessageSent => ("Message sent successfully! I'll get back to you soon.", "success")
  }

  /** The submit handler's decision for the three field values (an empty input
      value is falsy). The form is reset only on `MessageSent`. */
  function SubmitNotice(fullName: string, email: string, message: string): (n: Notice)
    ensures n == MessageSent <==>
              fullName != "" && message != "" && MatchesEmailRegex(email)
    ensures n == InvalidEmailAddress <==>
              fullName != "" && email != "" && message != "" && !MatchesEmailRegex(email)
    ensures NoticeText(n).1 == "success" <==> n == MessageSent
  {
    IsValidEmailIffRegex(email);
    if fullName == "" || email == "" || message == "" then FillInAllFields
    else if !IsValidEmail(email) then InvalidEmailAddress
    else MessageSent
  }

  /** The shortest accepted address has five characters. */
  lemma AcceptsShortestAddress()
    ensures IsValidEmail("a@b.c")
  {
    var s := "a@b.c";
    assert s[..1] == "a" && s[2..3] == "b" && s[4..] == "c";
    SplitEmailIsValid(s, 1, 3);
  }

  lemma RejectsDomainWithoutDot()
    ensures !IsValidEmail("a@bc")
  {
    assert IndexOf("a@bc", '@') == 1;
  }

  lemma RejectsSecondAt()
    ensures !IsValidEmail("a@b@c.d")
  {
    var s := "a@b@c.d";
    assert IndexOf(s, '@') == 1;
    assert !Plain(s[2..][1]);
  }
}
