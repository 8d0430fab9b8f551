/** Recognition of college e-mail addresses (`utils/EmailValidator.java`).
    An address such as "name.bt23cseds@pec.edu.in" carries the student's
    group: "bt", a two-digit batch year and a department. */
module EmailValidator {
  import opened Wrappers
  import opened JavaString

  const PEC_DOMAIN := "@pec.edu.in"

  predicate IsAsciiLetter(c: char) {
    'a' <= c <= 'z' || 'A' <= c <= 'Z'
  }

  /** The character class `[a-zA-Z0-9.]` of the address's leading part. */
  predicate IsLocalChar(c: char) {
    IsAsciiLetter(c) || IsDigit(c) || c == '.'
  }

  /** `[a-zA-Z0-9.]+` */
  predicate IsLocalPrefix(s: string) {
    |s| >= 1 && forall k :: 0 <= k < |s| ==> IsLocalChar(s[k])
  }

  /** The capture group `bt\d{2}[a-zA-Z]+`. */
  predicate IsGroup(g: string) {
    && |g| >= 5
    && g[..2] == "bt"
    && IsDigit(g[2]) && IsDigit(g[3])
    && forall k :: 4 <= k < |g| ==> IsAsciiLetter(g[k])
  }

  /** The anchored pattern `^[a-zA-Z0-9.]+\.(bt\d{2}[a-zA-Z]+)@pec\.edu\.in$`
      matches `email` by reading `prefix` before the last dot and `g` as its
      group. */
  ghost predicate PatternMatches(email: string, prefix: string, g: string) {
    email == prefix + "." + g + PEC_DOMAIN && IsLocalPrefix(prefix) && IsGroup(g)
  }

  /** `isPecEmail`: a non-null address in the college domain. */
  predicate IsPecEmail(email: Option<string>) {
    email.Some? && EndsWith(email.value, PEC_DOMAIN)
  }

  /** A college address is exactly some local part followed by the domain. */
  lemma PecEmailShape(email: string)
    ensures IsPecEmail(Some(email)) <==>
      |email| >= |PEC_DOMAIN| && email == email[..|email| - |PEC_DOMAIN|] + PEC_DOMAIN
  {
  }

  /** Group 1 of the pattern, by scanning for the last dot of the local part. */
  function MatchGroup(email: string): (r: Option<string>)
    ensures r.Some? ==>
      |email| >= |r.value| + 1 + |PEC_DOMAIN| &&
      PatternMatches(email, email[..|email| - |r.value| - 1 - |PEC_DOMAIN|], r.value)
  {
    if !EndsWith(email, PEC_DOMAIN) then None
    else
      var local := email[..|email| - |PEC_DOMAIN|];
      if !(forall k :: 0 <= k < |local| ==> IsLocalChar(local[k])) then None
      else
        var dot := LastIndexOfChar(local, '.');
        if dot < 1 || !IsGroup(local[dot + 1..]) then None
        else
          assert email == local[..dot] + "." + local[dot + 1..] + PEC_DOMAIN;
          Some(local[dot + 1..])
  }

  /** `extractBatchAndDepartment`: the group of a college address that fits
      the pattern, null otherwise. */
  function ExtractBatchAndDepartment(email: Option<string>): (r: Option<string>)
    ensures r.Some? ==> IsPecEmail(email)
    ensures r.Some? ==>
      |email.value| >= |r.value| + 1 + |PEC_DOMAIN| &&
      PatternMatches(email.value, email.value[..|email.value| - |r.value| - 1 - |PEC_DOMAIN|], r.value)
  {
    if !IsPecEmail(email) then None else MatchGroup(email.value)
  }

  /** Every address the pattern accepts yields its group. */
  lemma ExtractComplete(prefix: string, g: string)
    requires IsLocalPrefix(prefix) && IsGroup(g)
    ensures ExtractBatchAndDepartment(Some(prefix + "." + g + PEC_DOMAIN)) == Some(g)
  {
    var email := prefix + "." + g + PEC_DOMAIN;
    var local := email[..|email| - |PEC_DOMAIN|];
    assert local == prefix + "." + g;
    assert forall k :: 0 <= k < |local| ==> IsLocalChar(local[k]) by {
      forall k | 0 <= k < |local| ensures IsLocalChar(local[k]) {
        if k < |prefix| { assert local[k] == prefix[k]; }
        else if k > |prefix| { assert local[k] == g[k - |prefix| - 1]; }
      }
    }
    var dot := LastIndexOfChar(local, '.');
    assert local[|prefix|] == '.';
    assert forall k :: |prefix| < k < |local| ==> local[k] != '.' by {
      forall k | |prefix| < k < |local| ensures local[k] != '.' {
        assert local[k] == g[k - |prefix| - 1];
      }
    }
    assert dot == |prefix|;
    assert local[dot + 1..] == g;
  }

  /** An address in the domain whose local part has no dot has no group. */
  lemma PecEmailWithoutGroup()
    ensures IsPecEmail(Some("x@pec.edu.in"))
    ensures ExtractBatchAndDepartment(Some("x@pec.edu.in")) == None
  {
    var local := "x@pec.edu.in"[..1];
    assert local == "x";
    assert LastIndexOfChar(local, '.') == -1;
  }

  /** An underscore in the local part defeats the pattern, even in the domain. */
  lemma UnderscoreDefeatsPattern()
    ensures IsPecEmail(Some("a_b.bt23cse@pec.edu.in"))
    ensures ExtractBatchAndDepartment(Some("a_b.bt23cse@pec.edu.in")) == None
  {
    var email := "a_b.bt23cse@pec.edu.in";
    var local := email[..|email| - |PEC_DOMAIN|];
    assert local[1] == '_' && !IsLocalChar(local[1]);
  }

  /** `extractBatchYear`: the two characters after "bt". */
  function ExtractBatchYear(email: Option<string>): (r: Option<string>)
    ensures r.Some? ==> |r.value| == 2 && AllDigits(r.value)
  {
    var bd := ExtractBatchAndDepartment(email);
    if bd.Some? && StartsWith(bd.value, "bt") && |bd.value| >= 4 then Some(bd.value[2..4]) else None
  }

  /** `extractDepartment`: everything after the batch year. */
  function ExtractDepartment(email: Option<string>): (r: Option<string>)
    ensures r.Some? ==> |r.value| >= 1 && forall k :: 0 <= k < |r.value| ==> IsAsciiLetter(r.value[k])
  {
    var bd := ExtractBatchAndDepartment(email);
    if bd.Some? && StartsWith(bd.value, "bt") && |bd.value| >= 5 then Some(bd.value[4..]) else None
  }

  /** Batch year and department exist together, and together with "bt"
      they spell the group back. */
  lemma YearAndDepartmentRebuildGroup(email: Option<string>)
    ensures ExtractBatchYear(email).Some? <==> ExtractBatchAndDepartment(email).Some?
    ensures ExtractDepartment(email).Some? <==> ExtractBatchAndDepartment(email).Some?
    ensures ExtractBatchAndDepartment(email).Some? ==>
      "bt" + ExtractBatchYear(email).value + ExtractDepartment(email).value == ExtractBatchAndDepartment(email).value
  {
    var bd := ExtractBatchAndDepartment(email);
    if bd.Some? {
      var g := bd.value;
      assert g == g[..2] + g[2..4] + g[4..];
    }
  }
}
