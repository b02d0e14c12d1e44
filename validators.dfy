/**
 * The pure predicates of server2.js that decide what a chat message means:
 * booking-intent detection and the e-mail and phone validators.
 */
module Validators {
  import opened Text

  /** The booking-intent phrases, in the order the source lists them. */
  const AppointmentKeywords: seq<string> := [
    "call me", "book an appointment", "schedule appointment",
    "book appointment", "appointment", "schedule a call",
    "schedule meeting", "need a call", "want to book",
    "set up meeting", "arrange a call"
  ]

  /** The phrases of `AppointmentKeywords` that do not contain another one of them. */
  const CoreKeywords: seq<string> := [
    "call me", "appointment", "schedule a call", "schedule meeting",
    "need a call", "want to book", "set up meeting", "arrange a call"
  ]

  /**
   * `isAppointmentRequest`: some phrase occurs in the lower-cased message. Any
   * mention of "appointment" qualifies, and the shortest phrase, "call me",
   * needs seven characters.
   */
  predicate IsAppointmentRequest(message: string)
    ensures Contains(ToLower(message), "appointment") ==> IsAppointmentRequest(message)
    ensures IsAppointmentRequest(message) ==> |message| >= 7
  {
    var lower := ToLower(message);
    assert AppointmentKeywords[4] == "appointment";
    assert forall i :: 0 <= i < |AppointmentKeywords| ==> |AppointmentKeywords[i]| >= 7;
    exists i :: 0 <= i < |AppointmentKeywords| && Contains(lower, AppointmentKeywords[i])
  }

  /** Keyword `i` of the full list is core keyword `j` (the core list omits entries 1 to 3). */
  lemma CoreKeywordIndex(j: int)
    requires 0 <= j < |CoreKeywords|
    ensures var i := if j == 0 then 0 else j + 3;
      0 <= i < |AppointmentKeywords| && AppointmentKeywords[i] == CoreKeywords[j]
  {
  }

  /** Entries 1 to 3 of the list each contain "appointment". */
  lemma LongKeywordContainsAppointment(i: int)
    requires 1 <= i <= 3
    ensures Contains(AppointmentKeywords[i], "appointment")
  {
    var k := AppointmentKeywords[i];
    if i == 1 {
      assert k == "book an appointment";
      assert k[8..] == "appointment";
      assert OccursAt(k, "appointment", 8);
    } else if i == 2 {
      assert k == "schedule appointment";
      assert k[9..] == "appointment";
      assert OccursAt(k, "appointment", 9);
    } else {
      assert k == "book appointment";
      assert k[5..] == "appointment";
      assert OccursAt(k, "appointment", 5);
    }
  }

  predicate HasCoreKeyword(message: string)
  {
    var lower := ToLower(message);
    exists j :: 0 <= j < |CoreKeywords| && Contains(lower, CoreKeywords[j])
  }

  /**
   * Three of the eleven phrases are redundant: each contains "appointment", so
   * intent detection is the same test over the eight core phrases.
   */
  lemma AppointmentRequestByCoreKeywords(message: string)
    ensures IsAppointmentRequest(message) <==> HasCoreKeyword(message)
  {
    var lower := ToLower(message);
    if IsAppointmentRequest(message) {
      var i :| 0 <= i < |AppointmentKeywords| && Contains(lower, AppointmentKeywords[i]);
      if 1 <= i <= 3 {
        LongKeywordContainsAppointment(i);
        ContainsTransitive(lower, AppointmentKeywords[i], "appointment");
        CoreKeywordIndex(1);
      } else {
        var j := if i == 0 then 0 else i - 3;
        CoreKeywordIndex(j);
      }
    }
    if HasCoreKeyword(message) {
      var j :| 0 <= j < |CoreKeywords| && Contains(lower, CoreKeywords[j]);
      CoreKeywordIndex(j);
    }
  }

  /** Matching ignores letter case: "CALL ME" asks for a booking, "Hello" does not. */
  lemma AppointmentRequestExamples()
    ensures IsAppointmentRequest("Please CALL ME tomorrow")
    ensures IsAppointmentRequest("book an appointment")
    ensures !IsAppointmentRequest("Hello")
  {
    var pre, mid, post := "Please ", "CALL ME", " tomorrow";
    LowerOccurrence(pre, mid, post);
    assert ToLower(mid) == AppointmentKeywords[0];
    assert pre + mid + post == "Please CALL ME tomorrow";
    var booking := "book an ";
    LowerOccurrence(booking, "appointment", "");
    assert ToLower("appointment") == "appointment";
    assert booking + "appointment" + "" == "book an appointment";
  }

  /** Lower-casing works character by character, so `mid` lower-cased occurs where `mid` stood. */
  lemma LowerOccurrence(pre: string, mid: string, post: string)
    ensures OccursAt(ToLower(pre + mid + post), ToLower(mid), |pre|)
  {
    var s := pre + mid + post;
    assert forall k :: 0 <= k < |mid| ==> s[|pre| + k] == mid[k];
    assert ToLower(s)[|pre|..|pre| + |mid|] == ToLower(mid);
  }

  // ---------------------------------------------------------------- e-mail

  /** `[^\s@]`. */
  predicate IsEmailChar(c: char)
  {
    !IsSpace(c) && c != '@'
  }

  /** `[^\s@]+`. */
  predicate IsEmailRun(s: string)
  {
    |s| > 0 && forall i :: 0 <= i < |s| ==> IsEmailChar(s[i])
  }

  /**
   * `isValidEmail`: the whole text matches `^[^\s@]+@[^\s@]+\.[^\s@]+$`, so a
   * valid address has at least five characters, among them an `@` and a `.`.
   */
  predicate IsValidEmail(email: string)
    ensures IsValidEmail(email) ==> |email| >= 5 && '@' in email && '.' in email
  {
    exists at, dot ::
      0 <= at < dot < |email| && email[at] == '@' && email[dot] == '.'
      && IsEmailRun(email[..at]) && IsEmailRun(email[at + 1..dot]) && IsEmailRun(email[dot + 1..])
  }

  /** A `.` with at least one character on either side. */
  predicate HasInnerDot(domain: string)
  {
    exists k :: 0 < k < |domain| - 1 && domain[k] == '.'
  }

  /**
   * The same test stated structurally: no whitespace, exactly one `@`, something
   * before it, and after it a `.` that is neither the first nor the last character.
   */
  predicate EmailShape(email: string)
  {
    && NoSpaces(email)
    && multiset(email)['@'] == 1
    && exists at :: 0 < at < |email| && email[at] == '@' && HasInnerDot(email[at + 1..])
  }

  lemma MultisetSplit(s: string, at: int)
    requires 0 <= at < |s|
    ensures multiset(s) == multiset(s[..at]) + multiset{s[at]} + multiset(s[at + 1..])
  {
    assert s == s[..at] + [s[at]] + s[at + 1..];
  }

  /** The three runs of an accepted address: every character but the `@` is an e-mail character. */
  lemma ValidEmailRuns(email: string, at: int, dot: int)
    requires 0 <= at < dot < |email| && email[at] == '@' && email[dot] == '.'
    requires IsEmailRun(email[..at]) && IsEmailRun(email[at + 1..dot]) && IsEmailRun(email[dot + 1..])
    ensures forall i :: 0 <= i < |email| && i != at ==> IsEmailChar(email[i])
  {
    forall i | 0 <= i < |email| && i != at
      ensures IsEmailChar(email[i])
    {
      if i < at {
        assert email[i] == email[..at][i];
      } else if at < i < dot {
        assert email[i] == email[at + 1..dot][i - at - 1];
      } else if dot < i {
        assert email[i] == email[dot + 1..][i - dot - 1];
      }
    }
  }

  /** An accepted address holds no whitespace. */
  lemma ValidEmailNoSpaces(email: string)
    ensures IsValidEmail(email) ==> NoSpaces(email)
  {
    if IsValidEmail(email) {
      var at, dot :| 0 <= at < dot < |email| && email[at] == '@' && email[dot] == '.'
        && IsEmailRun(email[..at]) && IsEmailRun(email[at + 1..dot]) && IsEmailRun(email[dot + 1..]);
      ValidEmailRuns(email, at, dot);
    }
  }

  lemma EmailValidHasShape(email: string)
    requires IsValidEmail(email)
    ensures EmailShape(email)
  {
    var at, dot :| 0 <= at < dot < |email| && email[at] == '@' && email[dot] == '.'
      && IsEmailRun(email[..at]) && IsEmailRun(email[at + 1..dot]) && IsEmailRun(email[dot + 1..]);
    ValidEmailRuns(email, at, dot);
    ValidEmailNoSpaces(email);
    MultisetSplit(email, at);
    assert '@' !in email[..at];
    assert '@' !in email[at + 1..];
    var domain := email[at + 1..];
    assert domain[dot - at - 1] == '.';
  }

  /** Cut at an `@` and a later `.`, a text of e-mail characters falls into three runs when none is empty. */
  lemma RunsOfEmailChars(email: string, at: int, dot: int)
    requires 0 < at && at + 1 < dot < |email| - 1
    requires forall i :: 0 <= i < |email| && i != at ==> IsEmailChar(email[i])
    ensures IsEmailRun(email[..at]) && IsEmailRun(email[at + 1..dot]) && IsEmailRun(email[dot + 1..])
  {
    var domain, top := email[at + 1..dot], email[dot + 1..];
    forall j | 0 <= j < |domain|
      ensures IsEmailChar(domain[j])
    {
      assert domain[j] == email[at + 1 + j];
    }
    forall j | 0 <= j < |top|
      ensures IsEmailChar(top[j])
    {
      assert top[j] == email[dot + 1 + j];
    }
  }

  lemma ShapedEmailIsValid(email: string)
    requires EmailShape(email)
    ensures IsValidEmail(email)
  {
    var at :| 0 < at < |email| && email[at] == '@' && HasInnerDot(email[at + 1..]);
    var domain := email[at + 1..];
    var k :| 0 < k < |domain| - 1 && domain[k] == '.';
    var dot := at + 1 + k;
    assert email[dot] == '.' by {
      assert email[dot] == domain[k];
    }
    OnlyAt(email, at);
    RunsOfEmailChars(email, at, dot);
  }

  /** A text with one `@` has it nowhere but at the index where it was found. */
  lemma OnlyAt(email: string, at: int)
    requires 0 <= at < |email| && email[at] == '@' && multiset(email)['@'] == 1
    ensures forall i :: 0 <= i < |email| && i != at ==> email[i] != '@'
  {
    MultisetSplit(email, at);
    assert '@' !in email[..at] && '@' !in email[at + 1..];
    forall i | 0 <= i < |email| && i != at
      ensures email[i] != '@'
    {
      if i < at {
        assert email[i] in email[..at];
      } else {
        assert email[i] in email[at + 1..];
      }
    }
  }

  /** The regex and the structural description accept the same addresses. */
  lemma EmailValidIff(email: string)
    ensures IsValidEmail(email) <==> EmailShape(email)
  {
    if IsValidEmail(email) {
      EmailValidHasShape(email);
    }
    if EmailShape(email) {
      ShapedEmailIsValid(email);
    }
  }

  /** Three addresses: "a@b.co" passes, "a@b" and "a b@c.com" do not. */
  lemma EmailAccepted()
    ensures IsValidEmail("a@b.co")
  {
    var e := "a@b.co";
    assert e[..1] == "a" && e[2..3] == "b" && e[4..] == "co";
    assert IsEmailRun(e[..1]) && IsEmailRun(e[2..3]) && IsEmailRun(e[4..]);
    assert e[1] == '@' && e[3] == '.';
    assert 0 <= 1 < 3 < |e| && IsEmailRun(e[..1]) && IsEmailRun(e[1 + 1..3]) && IsEmailRun(e[3 + 1..]);
  }

  lemma EmailWithoutDotRejected()
    ensures !IsValidEmail("a@b")
  {
    assert forall i :: 0 <= i < 3 ==> "a@b"[i] != '.';
  }

  lemma EmailWithSpaceRejected()
    ensures !IsValidEmail("a b@c.com")
  {
    ValidEmailNoSpaces("a b@c.com");
    assert IsSpace("a b@c.com"[1]);
  }

  // ---------------------------------------------------------------- phone

  /** The characters `phone.replace(/[\s\-\(\)]/g, '')` removes. */
  predicate IsPhoneSeparator(c: char)
  {
    IsSpace(c) || c == '-' || c == '(' || c == ')'
  }

  /** The phone number with every separator removed. */
  function CleanPhone(phone: string): (r: string)
    ensures |r| <= |phone|
    ensures forall i :: 0 <= i < |r| ==> !IsPhoneSeparator(r[i])
  {
    if phone == [] then []
    else if IsPhoneSeparator(phone[0]) then CleanPhone(phone[1..])
    else [phone[0]] + CleanPhone(phone[1..])
  }

  /** `^\+?[0-9]+$`: an optional `+` and then one or more digits. */
  predicate IsPlusDigits(s: string)
  {
    if |s| > 0 && s[0] == '+' then |s| > 1 && AllDigits(s[1..]) else |s| > 0 && AllDigits(s)
  }

  /**
   * `isValidPhone`: at least ten code units remain after cleaning, and they are
   * `+`? digits. Such characters take one code unit each, so the test is the
   * same on characters, and a valid number is at least ten characters long.
   */
  predicate IsValidPhone(phone: string)
    ensures IsValidPhone(phone) <==> |CleanPhone(phone)| >= 10 && IsPlusDigits(CleanPhone(phone))
    ensures IsValidPhone(phone) ==> |phone| >= 10
  {
    var clean := CleanPhone(phone);
    PlusDigitsLength(clean);
    Utf16Length(clean) >= 10 && IsPlusDigits(clean)
  }

  /** `+`? digits take one UTF-16 code unit per character. */
  lemma PlusDigitsLength(clean: string)
    ensures IsPlusDigits(clean) ==> Utf16Length(clean) == |clean|
  {
    if IsPlusDigits(clean) {
      assert forall i :: 0 <= i < |clean| ==> clean[i] == '+' || IsDigit(clean[i]) by {
        if clean[0] == '+' {
          assert forall i :: 1 <= i < |clean| ==> clean[i] == clean[1..][i - 1];
        }
      }
      Utf16LengthOfBmp(clean);
    }
  }

  /** Cleaning works character by character, so it distributes over concatenation. */
  lemma {:induction false} CleanPhoneConcat(a: string, b: string)
    ensures CleanPhone(a + b) == CleanPhone(a) + CleanPhone(b)
  {
    if a == [] {
      assert a + b == b;
    } else {
      assert (a + b)[0] == a[0] && (a + b)[1..] == a[1..] + b;
      CleanPhoneConcat(a[1..], b);
    }
  }

  /** A cleaned number has nothing left to clean. */
  lemma {:induction false} CleanPhoneIdempotent(phone: string)
    ensures CleanPhone(CleanPhone(phone)) == CleanPhone(phone)
  {
    if phone != [] {
      CleanPhoneIdempotent(phone[1..]);
      if !IsPhoneSeparator(phone[0]) {
        CleanPhoneConcat([phone[0]], CleanPhone(phone[1..]));
      }
    }
  }

  /** Inserting or deleting a space, hyphen or parenthesis never changes whether a number is valid. */
  lemma SeparatorIgnored(before: string, sep: char, after: string)
    requires IsPhoneSeparator(sep)
    ensures IsValidPhone(before + [sep] + after) == IsValidPhone(before + after)
  {
    CleanPhoneConcat(before + [sep], after);
    CleanPhoneConcat(before, [sep]);
    CleanPhoneConcat(before, after);
    assert CleanPhone([sep]) == CleanPhone([sep][1..]) == [];
    assert CleanPhone(before + [sep]) == CleanPhone(before);
    assert CleanPhone(before + [sep] + after) == CleanPhone(before + after);
  }

  function DigitCount(s: string): (n: nat)
    ensures n <= |s|
  {
    if s == [] then 0 else (if IsDigit(s[0]) then 1 else 0) + DigitCount(s[1..])
  }

  lemma {:induction false} DigitCountOfClean(phone: string)
    ensures DigitCount(CleanPhone(phone)) == DigitCount(phone)
  {
    if phone != [] {
      DigitCountOfClean(phone[1..]);
      if !IsPhoneSeparator(phone[0]) {
        assert ([phone[0]] + CleanPhone(phone[1..]))[1..] == CleanPhone(phone[1..]);
      }
    }
  }

  lemma {:induction false} DigitCountOfDigits(s: string)
    requires AllDigits(s)
    ensures DigitCount(s) == |s|
  {
    if s != [] {
      DigitCountOfDigits(s[1..]);
    }
  }

  /**
   * A valid number holds at least nine digits, and ten when it has no leading `+`:
   * the `+` counts towards the length of ten.
   */
  lemma ValidPhoneDigits(phone: string)
    requires IsValidPhone(phone)
    ensures DigitCount(phone) >= 9
    ensures CleanPhone(phone)[0] != '+' ==> DigitCount(phone) >= 10
  {
    var c := CleanPhone(phone);
    DigitCountOfClean(phone);
    Utf16LengthOfBmp(c);
    if c[0] == '+' {
      DigitCountOfDigits(c[1..]);
      assert c == [c[0]] + c[1..];
      assert DigitCount(c) == DigitCount(c[1..]);
    } else {
      DigitCountOfDigits(c);
    }
  }

  predicate NoSeparators(s: string)
  {
    forall i :: 0 <= i < |s| ==> !IsPhoneSeparator(s[i])
  }

  /** A number without separators is its own cleaned form. */
  lemma {:induction false} CleanPhoneOfClean(phone: string)
    requires NoSeparators(phone)
    ensures CleanPhone(phone) == phone
  {
    if phone != [] {
      CleanPhoneOfClean(phone[1..]);
    }
  }

  /** An all-digit text of ten or more characters is a valid number. */
  lemma DigitsArePhone(phone: string)
    requires AllDigits(phone) && |phone| >= 10
    ensures IsValidPhone(phone)
  {
    CleanPhoneOfClean(phone);
    Utf16LengthOfBmp(phone);
  }

  /** `+` followed by nine or more digits is a valid number. */
  lemma PlusDigitsArePhone(phone: string)
    requires |phone| >= 10 && phone[0] == '+' && AllDigits(phone[1..])
    ensures IsValidPhone(phone)
  {
    assert forall i :: 1 <= i < |phone| ==> phone[i] == phone[1..][i - 1];
    CleanPhoneOfClean(phone);
    Utf16LengthOfBmp(phone);
  }

  /** The plain example of the phone retry message, "1234567890", is accepted. */
  lemma PlainPhoneAccepted()
    ensures IsValidPhone("1234567890")
  {
    DigitsArePhone("1234567890");
  }

  lemma CleanOneSeparator(sep: char)
    requires IsPhoneSeparator(sep)
    ensures CleanPhone([sep]) == []
  {
    assert [sep][1..] == [];
  }

  lemma CleanPieceThenHyphen(piece: string, rest: string)
    requires NoSeparators(piece)
    ensures CleanPhone(piece + "-" + rest) == piece + CleanPhone(rest)
  {
    CleanOneSeparator('-');
    CleanPhoneConcat(piece, "-");
    CleanPhoneConcat(piece + "-", rest);
    CleanPhoneOfClean(piece);
  }

  /** A number written as four hyphen-separated groups cleans to the groups run together. */
  lemma HyphenGroups(a: string, b: string, c: string, d: string)
    requires NoSeparators(a) && NoSeparators(b) && NoSeparators(c) && NoSeparators(d)
    ensures CleanPhone(a + "-" + (b + "-" + (c + "-" + d))) == a + (b + (c + d))
  {
    CleanPhoneOfClean(d);
    CleanPieceThenHyphen(c, d);
    CleanPieceThenHyphen(b, c + "-" + d);
    CleanPieceThenHyphen(a, b + "-" + (c + "-" + d));
  }

  /** `+`, then four hyphen-separated groups of digits, nine or more digits in all, is a valid number. */
  lemma PlusGroupsArePhone(a: string, b: string, c: string, d: string)
    requires AllDigits(a) && AllDigits(b) && AllDigits(c) && AllDigits(d)
    requires |a| + |b| + |c| + |d| >= 9
    ensures IsValidPhone("+" + a + "-" + (b + "-" + (c + "-" + d)))
  {
    var digits := a + (b + (c + d));
    assert AllDigits(digits);
    HyphenGroups("+" + a, b, c, d);
    var clean := "+" + digits;
    assert clean[1..] == digits;
    assert ("+" + a) + (b + (c + d)) == clean;
    PlusDigitsArePhone(clean);
    CleanPhoneOfClean(clean);
  }

  /** The punctuated example of the reply text, "+1-234-567-8900", is accepted. */
  lemma PunctuatedPhoneAccepted()
    ensures IsValidPhone("+1-234-567-8900")
  {
    var area, exchange, line := "234", "567", "8900";
    PlusGroupsArePhone("1", area, exchange, line);
    assert "+" + "1" + "-" + (area + "-" + (exchange + "-" + line)) == "+1-234-567-8900";
  }

  lemma ShortPhoneRejected()
    ensures !IsValidPhone("12345")
  {
    Utf16LengthBounds(CleanPhone("12345"));
  }

  /** `+` then nine or more digits is valid, and the `+` is not counted as a digit. */
  lemma PlusDigitsCounted(digits: string)
    requires AllDigits(digits) && |digits| >= 9
    ensures IsValidPhone("+" + digits) && DigitCount("+" + digits) == |digits|
  {
    var phone := "+" + digits;
    assert phone[1..] == digits;
    PlusDigitsArePhone(phone);
    DigitCountOfDigits(digits);
  }

  /** "+123456789" is accepted although it holds nine digits: the `+` counts towards the ten. */
  lemma NineDigitPhoneAccepted()
    ensures IsValidPhone("+123456789") && DigitCount("+123456789") == 9
  {
    var digits := "123456789";
    PlusDigitsCounted(digits);
    assert "+" + digits == "+123456789";
  }
}
