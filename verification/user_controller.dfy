/** `UserController`: the department whitelist, the signup gate, and the
    one-time-password protocol between `signup` and `verifyOtp`. The pending
    store is a map; the random OTP and the encoded password are inputs, the
    mail is not modelled, and the clock is the `today` argument. */
module UserController {
  import opened Wrappers
  import opened JavaString
  import opened Entities
  import EmailValidator
  import SemesterCalculator

  const ADMIN_EMAIL := "ajinkyashivpure@gmail.com"

  const VALID_DEPARTMENTS := ["cse", "cseds", "cseai", "vlsi", "ele", "ece", "mech", "civil", "meta", "prod"]

  /** The suffix under which a pending signup's "name,encodedPassword" is kept. */
  const DATA_SUFFIX := "_data"

  /** The saved accounts and the pending OTP store. */
  datatype Accounts = Accounts(users: seq<User>, otpStore: map<string, string>)

  /** `MailFailed` is the exception `sendOtpEmail` throws out of the
      endpoint, answered 500. */
  datatype SignupOutcome = EmailExists | NotPecEmail | InvalidDepartment | MailFailed | OtpSent

  datatype VerifyOutcome = SignupComplete | InvalidOtp | ServerError

  /** The first listed name equal to `d` ignoring case, scanning in order. */
  function FirstMatch(valid: seq<string>, d: string): (r: bool)
    ensures r <==> exists i :: 0 <= i < |valid| && EqualsIgnoreCase(valid[i], d)
  {
    if |valid| == 0 then false
    else if EqualsIgnoreCase(valid[0], d) then true
    else
      assert forall i :: 1 <= i < |valid| ==> valid[i] == valid[1..][i - 1];
      FirstMatch(valid[1..], d)
  }

  /** `isValidDepartment`: non-null and, ignoring case, one of the ten
      listed departments. */
  function IsValidDepartment(department: Option<string>): (r: bool)
    ensures r <==> (department.Some? &&
      exists i :: 0 <= i < |VALID_DEPARTMENTS| && EqualsIgnoreCase(VALID_DEPARTMENTS[i], department.value))
  {
    if department.None? then false
    else FirstMatch(VALID_DEPARTMENTS, department.value)
  }

  predicate IsLowerAscii(s: string) {
    forall k :: 0 <= k < |s| ==> !('A' <= s[k] <= 'Z')
  }

  lemma LowerIsFixed(s: string)
    requires IsLowerAscii(s)
    ensures ToLower(s) == s
  {
  }

  /** The whitelist as a lookup: a department is valid exactly when its
      lowercase form is listed. */
  lemma ValidDepartmentIsListedLowercase(d: string)
    ensures IsValidDepartment(Some(d)) <==> ToLower(d) in VALID_DEPARTMENTS
  {
    forall i | 0 <= i < |VALID_DEPARTMENTS|
      ensures ToLower(VALID_DEPARTMENTS[i]) == VALID_DEPARTMENTS[i]
    {
      LowerIsFixed(VALID_DEPARTMENTS[i]);
    }
    if ToLower(d) in VALID_DEPARTMENTS {
      var i :| 0 <= i < |VALID_DEPARTMENTS| && VALID_DEPARTMENTS[i] == ToLower(d);
      assert EqualsIgnoreCase(VALID_DEPARTMENTS[i], d);
    }
  }

  predicate EmailTaken(users: seq<User>, email: string) {
    exists i :: 0 <= i < |users| && users[i].email == email
  }

  lemma FourDigits(otp: int)
    requires 1000 <= otp <= 9999
    ensures |IntToString(otp)| == 4
  {
    assert NatToString(otp) == NatToString(otp / 10) + [DigitChar(otp % 10)];
    assert NatToString(otp / 10) == NatToString(otp / 100) + [DigitChar(otp / 10 % 10)];
    assert NatToString(otp / 100) == NatToString(otp / 1000) + [DigitChar(otp / 100 % 10)];
  }

  /** `signup`. The checks run in this order: an existing email; a
      non-admin address outside the college domain; a non-admin address
      whose department is missing or not listed. The admin address skips the
      last two. Every rejection leaves the state as it was. An accepted
      address first gets the four-digit OTP stored under the email; then the
      mail is sent (`mailSent` says whether that succeeded). A failed send
      throws, so "name,encodedPassword" is never stored under
      email + "_data"; otherwise it is, replacing any pending entry. */
  function Signup(acc: Accounts, name: string, email: string, encodedPassword: string, otp: int,
                  mailSent: bool): (r: (Accounts, SignupOutcome))
    requires 1000 <= otp <= 9999
    ensures EmailTaken(acc.users, email) ==> r.1 == EmailExists
    ensures !EmailTaken(acc.users, email) && email != ADMIN_EMAIL && !EmailValidator.IsPecEmail(Some(email)) ==>
      r.1 == NotPecEmail
    ensures !EmailTaken(acc.users, email) && email != ADMIN_EMAIL && EmailValidator.IsPecEmail(Some(email)) ==>
      (r.1 == InvalidDepartment <==> !IsValidDepartment(EmailValidator.ExtractDepartment(Some(email))))
    ensures r.1 == OtpSent <==> (mailSent &&
      !EmailTaken(acc.users, email) &&
      (email == ADMIN_EMAIL || IsValidDepartment(EmailValidator.ExtractDepartment(Some(email)))))
    ensures r.1 == MailFailed <==> (!mailSent &&
      !EmailTaken(acc.users, email) &&
      (email == ADMIN_EMAIL || IsValidDepartment(EmailValidator.ExtractDepartment(Some(email)))))
    ensures r.1 != OtpSent && r.1 != MailFailed ==> r.0 == acc
    ensures r.1 == MailFailed ==>
      r.0 == Accounts(acc.users, acc.otpStore[email := IntToString(otp)]) && |r.0.otpStore[email]| == 4
    ensures r.1 == OtpSent ==>
      && r.0.users == acc.users
      && r.0.otpStore == acc.otpStore[email := IntToString(otp)][email + DATA_SUFFIX := name + "," + encodedPassword]
      && |r.0.otpStore[email]| == 4
  {
    if EmailTaken(acc.users, email) then (acc, EmailExists)
    else if email != ADMIN_EMAIL && !EmailValidator.IsPecEmail(Some(email)) then (acc, NotPecEmail)
    else if email != ADMIN_EMAIL && !IsValidDepartment(EmailValidator.ExtractDepartment(Some(email))) then
      (acc, InvalidDepartment)
    else
      FourDigits(otp);
      assert email + DATA_SUFFIX != email by { assert |email + DATA_SUFFIX| != |email|; }
      var store := acc.otpStore[email := IntToString(otp)];
      if !mailSent then (Accounts(acc.users, store), MailFailed)
      else (Accounts(acc.users, store[email + DATA_SUFFIX := name + "," + encodedPassword]), OtpSent)
  }

  /** The account `verifyOtp` saves: an admin for the admin address, else a
      student whose group, batch, department, semester and date range come
      from the address and today's date. */
  function NewUser(email: string, name: string, encodedPassword: string, today: SemesterCalculator.Today): (u: User)
    ensures u.email == email && u.name == name && u.password == encodedPassword
    ensures u.role == ADMIN <==> email == ADMIN_EMAIL
    ensures u.role == ADMIN ==>
      u.userGroup.None? && u.batchYear.None? && u.department.None? && u.currentSemester.None? && u.semesterDateRange.None?
    ensures u.role == USER ==>
      && u.userGroup == EmailValidator.ExtractBatchAndDepartment(Some(email))
      && u.batchYear == EmailValidator.ExtractBatchYear(Some(email))
      && u.department == EmailValidator.ExtractDepartment(Some(email))
      && u.currentSemester == Some(SemesterCalculator.CalculateCurrentSemester(u.batchYear, today))
      && u.semesterDateRange == Some(SemesterCalculator.GetSemesterDateRange(u.batchYear, u.currentSemester.value, today))
  {
    var role := if email == ADMIN_EMAIL then ADMIN else USER;
    var user := User(name, email, encodedPassword, role, None, None, None, None, None);
    if role == USER then
      var batchYear := EmailValidator.ExtractBatchYear(Some(email));
      var currentSemester := SemesterCalculator.CalculateCurrentSemester(batchYear, today);
      user.(userGroup := EmailValidator.ExtractBatchAndDepartment(Some(email)),
            batchYear := batchYear,
            department := EmailValidator.ExtractDepartment(Some(email)),
            currentSemester := Some(currentSemester),
            semesterDateRange := Some(SemesterCalculator.GetSemesterDateRange(batchYear, currentSemester, today)))
    else user
  }

  predicate OtpMatches(store: map<string, string>, email: string, otp: string) {
    email in store && store[email] == otp
  }

  /** `verifyOtp`. Without a matching pending OTP it answers 400 and changes
      nothing. With one, the OTP entry is removed first; pending data that
      is missing or splits on "," into fewer than two fields then throws
      (500) with only that removal done. Otherwise one account is saved,
      named by the first field and holding the second as its password, and
      the data entry is removed too. */
  function VerifyOtp(acc: Accounts, email: string, otp: string, today: SemesterCalculator.Today): (r: (Accounts, VerifyOutcome))
    ensures r.1 == InvalidOtp <==> !OtpMatches(acc.otpStore, email, otp)
    ensures r.1 == InvalidOtp ==> r.0 == acc
    ensures r.1 == ServerError ==>
      r.0 == Accounts(acc.users, acc.otpStore - {email})
    ensures r.1 == ServerError <==> (OtpMatches(acc.otpStore, email, otp) &&
      (email + DATA_SUFFIX !in acc.otpStore || |Split(acc.otpStore[email + DATA_SUFFIX], ',')| < 2))
    ensures r.1 == SignupComplete ==>
      var fields := Split(acc.otpStore[email + DATA_SUFFIX], ',');
      && r.0.otpStore == acc.otpStore - {email, email + DATA_SUFFIX}
      && r.0.users == acc.users + [NewUser(email, fields[0], fields[1], today)]
  {
    if !OtpMatches(acc.otpStore, email, otp) then (acc, InvalidOtp)
    else
      assert email + DATA_SUFFIX != email by { assert |email + DATA_SUFFIX| != |email|; }
      var store := acc.otpStore - {email};
      if email + DATA_SUFFIX !in store then (Accounts(acc.users, store), ServerError)
      else
        var userData := Split(store[email + DATA_SUFFIX], ',');
        if |userData| < 2 then (Accounts(acc.users, store), ServerError)
        else
          var user := NewUser(email, userData[0], userData[1], today);
          (Accounts(acc.users + [user], store - {email + DATA_SUFFIX}), SignupComplete)
  }

  /** A comma-free first field is split off at the first comma. */
  lemma FieldsCons(first: string, rest: string)
    requires ',' !in first
    ensures Fields(first + "," + rest, ',') == [first] + Fields(rest, ',')
  {
    var s := first + "," + rest;
    assert s[|first|] == ',';
    assert IndexOfChar(s, ',') == |first|;
    assert s[..|first|] == first && s[|first| + 1..] == rest;
  }

  lemma SplitPair(name: string, encodedPassword: string)
    requires ',' !in name && ',' !in encodedPassword && encodedPassword != ""
    ensures Split(name + "," + encodedPassword, ',') == [name, encodedPassword]
  {
    FieldsCons(name, encodedPassword);
    assert (name + "," + encodedPassword)[|name|] == ',';
  }

  /** The round trip: a signup that sent an OTP, followed by a verification
      with that OTP, saves exactly one account carrying the submitted name and
      encoded password and leaves no pending entry for the address, provided
      neither contains a comma and the encoded password is not empty. */
  lemma SignupThenVerify(acc: Accounts, name: string, email: string, encodedPassword: string, otp: int,
                         today: SemesterCalculator.Today)
    requires 1000 <= otp <= 9999
    requires ',' !in name && ',' !in encodedPassword && encodedPassword != ""
    requires Signup(acc, name, email, encodedPassword, otp, true).1 == OtpSent
    ensures var after := Signup(acc, name, email, encodedPassword, otp, true).0;
      var r := VerifyOtp(after, email, IntToString(otp), today);
      && r.1 == SignupComplete
      && r.0.users == acc.users + [NewUser(email, name, encodedPassword, today)]
      && r.0.otpStore == acc.otpStore - {email, email + DATA_SUFFIX}
  {
    var after := Signup(acc, name, email, encodedPassword, otp, true).0;
    assert after.otpStore[email + DATA_SUFFIX] == name + "," + encodedPassword;
    SplitPair(name, encodedPassword);
  }

  lemma SplitTriple(first: string, second: string, third: string)
    requires ',' !in first && ',' !in second && ',' !in third && third != ""
    ensures Split(first + "," + second + "," + third, ',') == [first, second, third]
  {
    var t := second + "," + third;
    var s := first + "," + t;
    assert first + "," + second + "," + third == s;
    assert Fields(third, ',') == [third] by {
      assert IndexOfChar(third, ',') == -1;
    }
    FieldsCons(second, third);
    FieldsCons(first, t);
    var fs := Fields(s, ',');
    assert fs == [first, second, third];
    assert s[|first|] == ',';
    assert DropTrailingEmpty(fs) == fs;
  }

  /** A name with a comma is cut at its first comma, and the text after it
      is saved as the password. */
  lemma CommaInNameIsTruncated(acc: Accounts, first: string, second: string, email: string,
                               encodedPassword: string, otp: int, today: SemesterCalculator.Today)
    requires 1000 <= otp <= 9999
    requires ',' !in first && ',' !in second && ',' !in encodedPassword && encodedPassword != ""
    requires Signup(acc, first + "," + second, email, encodedPassword, otp, true).1 == OtpSent
    ensures var after := Signup(acc, first + "," + second, email, encodedPassword, otp, true).0;
      var r := VerifyOtp(after, email, IntToString(otp), today);
      && r.1 == SignupComplete
      && r.0.users == acc.users + [NewUser(email, first, second, today)]
  {
    var after := Signup(acc, first + "," + second, email, encodedPassword, otp, true).0;
    assert after.otpStore[email + DATA_SUFFIX] == first + "," + second + "," + encodedPassword;
    SplitTriple(first, second, encodedPassword);
  }

  /** A signup whose mail failed leaves the OTP stored but no pending data,
      so verifying with that OTP (for an address with no earlier pending
      data) reaches the 500 branch and only removes the OTP. */
  lemma FailedMailBreaksVerification(acc: Accounts, name: string, email: string, encodedPassword: string,
                                     otp: int, today: SemesterCalculator.Today)
    requires 1000 <= otp <= 9999
    requires email + DATA_SUFFIX !in acc.otpStore
    requires Signup(acc, name, email, encodedPassword, otp, false).1 == MailFailed
    ensures var after := Signup(acc, name, email, encodedPassword, otp, false).0;
      var r := VerifyOtp(after, email, IntToString(otp), today);
      && r.1 == ServerError
      && r.0 == Accounts(acc.users, acc.otpStore - {email})
  {
    var after := Signup(acc, name, email, encodedPassword, otp, false).0;
    assert email + DATA_SUFFIX != email by { assert |email + DATA_SUFFIX| != |email|; }
    assert email + DATA_SUFFIX !in after.otpStore;
    assert after.otpStore - {email} == acc.otpStore - {email};
  }
}
