/** `cleanJsonResponse` (service/McqGenerationService.java): recovering a
    JSON array from a model reply that may carry prose or a markdown fence. */
module JsonRepair {
  import opened Wrappers
  import opened JavaString

  const FENCE := "```"

  /** Some `[` stands before some later `]`. */
  ghost predicate HasBracketPair(s: string) {
    exists i, j :: 0 <= i < j < |s| && s[i] == '[' && s[j] == ']'
  }

  /** The primary test of the source, `indexOf('[')` and `lastIndexOf(']')`
      found in that order, is exactly the existence of an ordered pair. */
  lemma BracketTest(s: string)
    ensures (IndexOfChar(s, '[') >= 0 && LastIndexOfChar(s, ']') >= 0 &&
             LastIndexOfChar(s, ']') > IndexOfChar(s, '[')) <==> HasBracketPair(s)
  {
    if HasBracketPair(s) {
      var i, j :| 0 <= i < j < |s| && s[i] == '[' && s[j] == ']';
      assert IndexOfChar(s, '[') <= i;
      assert LastIndexOfChar(s, ']') >= j;
    }
  }

  /** A piece of a text without an ordered pair has none either. */
  lemma NoPairInSlice(t: string, s: string)
    requires IsSlice(t, s) && !HasBracketPair(s)
    ensures !HasBracketPair(t)
  {
    var a, b :| 0 <= a <= b <= |s| && t == s[a..b];
    forall i, j | 0 <= i < j < |t| && t[i] == '['
      ensures t[j] != ']'
    {
      assert t[i] == s[a + i] && t[j] == s[a + j];
    }
  }

  /** `indexOf("\n", from)` for a non-negative start: the position of the
      first newline at or after `from`, or -1. */
  lemma NewlineScan(s: string, from: int)
    requires 0 <= from
    ensures var i := IndexOfFrom(s, "\n", from);
      && (i >= 0 ==> from <= i < |s| && s[i] == '\n')
      && (forall k :: from <= k < |s| && (i < 0 || k < i) ==> s[k] != '\n')
  {
    var i := IndexOfFrom(s, "\n", from);
    if i >= 0 {
      assert s[i..i + 1] == "\n";
    }
    forall k | from <= k < |s| && (i < 0 || k < i)
      ensures s[k] != '\n'
    {
      if s[k] == '\n' {
        assert s[k..k + 1] == "\n";
        assert OccursAt(s, "\n", k);
      }
    }
  }

  /** `indexOf("\n", from) + 1`: one past the first newline at or after
      `from`, or 0 when there is none. */
  function NextLineStart(s: string, from: int): (r: int)
    requires 0 <= from
    ensures 0 <= r <= |s|
    ensures r > 0 ==> from < r && s[r - 1] == '\n'
    ensures forall k :: from <= k < |s| && (r == 0 || k < r - 1) ==> s[k] != '\n'
  {
    NewlineScan(s, from);
    IndexOfFrom(s, "\n", from) + 1
  }

  /** Where the fenced block starts, given the first fence at `fenceAt`:
      past a following "json", the first newline after it, otherwise the
      first newline at or after the fence; one past that newline, or 0 when
      there is none. Since the fence holds no newline, both cases are one
      past the first newline at or after the fence. */
  function CodeStart(response: string, fenceAt: int): (r: int)
    requires 0 <= fenceAt && OccursAt(response, FENCE, fenceAt)
    ensures 0 <= r <= |response|
    ensures forall k :: fenceAt <= k < r - 1 ==> response[k] != '\n'
    ensures r > 0 ==> fenceAt < r && response[r - 1] == '\n'
    ensures r == 0 ==> forall k :: fenceAt <= k < |response| ==> response[k] != '\n'
  {
    var afterFence := fenceAt + |FENCE|;
    assert response[fenceAt..afterFence] == FENCE;
    assert response[fenceAt] == '`' && response[fenceAt + 1] == '`' && response[fenceAt + 2] == '`';
    if StartsWith(response[afterFence..], "json") then NextLineStart(response, afterFence)
    else NextLineStart(response, afterFence - |FENCE|)
  }

  /** Where the fenced block lies: from `CodeStart` up to the last fence;
      None when there is no fence or the block would be empty. */
  function CodeBounds(response: string): (r: Option<(int, int)>)
    ensures r.Some? ==> 0 <= r.value.0 < r.value.1 <= |response|
    ensures !Contains(response, FENCE) ==> r.None?
  {
    if !Contains(response, FENCE) then None
    else
      var fenceAt := IndexOfFrom(response, FENCE, 0);
      var codeStart := CodeStart(response, fenceAt);
      var codeEnd := LastIndexOf(response, FENCE);
      if codeStart < codeEnd then Some((codeStart, codeEnd)) else None
  }

  /** A found block ends where the last fence begins. */
  lemma FencedBlockEnd(response: string)
    requires CodeBounds(response).Some?
    ensures var end := CodeBounds(response).value.1;
      OccursAt(response, FENCE, end) && forall j :: end < j ==> !OccursAt(response, FENCE, j)
  {
  }

  /** A found block starts just past the first newline at or after the
      first fence, or at 0 when there is none. */
  lemma FencedBlockStart(response: string)
    requires CodeBounds(response).Some?
    ensures var start := CodeBounds(response).value.0;
      var f := IndexOfFrom(response, FENCE, 0);
      && 0 <= f && OccursAt(response, FENCE, f)
      && (forall k :: 0 <= k < f ==> !OccursAt(response, FENCE, k))
      && (forall k :: f <= k < start - 1 ==> response[k] != '\n')
      && (start > 0 ==> f < start && response[start - 1] == '\n')
      && (start == 0 ==> forall k :: f <= k < |response| ==> response[k] != '\n')
  {
    var f := IndexOfFrom(response, FENCE, 0);
    assert 0 <= f && OccursAt(response, FENCE, f);
    assert CodeBounds(response).value.0 == CodeStart(response, f);
  }

  /** The trimmed fenced block, when there is one. */
  function FencedBlock(response: string): Option<string> {
    match CodeBounds(response)
    case None => None
    case Some((codeStart, codeEnd)) => Some(Trim(response[codeStart..codeEnd]))
  }

  /** `cleanJsonResponse`, branch for branch, including the second bracket
      search inside the fenced block. */
  function CleanJsonResponse(response: string): (r: string)
    ensures IsSlice(r, response)
    ensures HasBracketPair(response) ==> |r| >= 2 && r[0] == '[' && r[|r| - 1] == ']'
    ensures !HasBracketPair(response) ==>
      r == match FencedBlock(response) case Some(block) => block case None => response
  {
    BracketTest(response);
    var jsonStart := IndexOfChar(response, '[');
    var jsonEnd := LastIndexOfChar(response, ']');
    if jsonStart >= 0 && jsonEnd >= 0 && jsonEnd > jsonStart then BracketCut(response)
    else FencePath(response)
  }

  /** The bracket path of `cleanJsonResponse`: from the first `[` to the
      last `]`, both included. */
  function BracketCut(response: string): (r: string)
    requires 0 <= IndexOfChar(response, '[') < LastIndexOfChar(response, ']')
    ensures |r| >= 2 && r[0] == '[' && r[|r| - 1] == ']'
    ensures IsSlice(r, response)
  {
    var r := response[IndexOfChar(response, '[')..LastIndexOfChar(response, ']') + 1];
    assert r == response[IndexOfChar(response, '[')..LastIndexOfChar(response, ']') + 1];
    r
  }

  /** The markdown-fence path of `cleanJsonResponse`, taken when the first
      bracket search failed; its own bracket search then never succeeds. */
  function FencePath(response: string): (r: string)
    requires !HasBracketPair(response)
    ensures IsSlice(r, response)
    ensures r == match FencedBlock(response) case Some(block) => block case None => response
  {
    match CodeBounds(response)
    case None =>
      assert response == response[0..|response|];
      response
    case Some((codeStart, codeEnd)) =>
      var codeBlock := Trim(response[codeStart..codeEnd]);
      assert IsSlice(response[codeStart..codeEnd], response) by {
        assert response[codeStart..codeEnd] == response[codeStart..codeEnd];
      }
      SliceOfSlice(codeBlock, response[codeStart..codeEnd], response);
      NoPairInSlice(codeBlock, response);
      BracketTest(codeBlock);
      var innerStart := IndexOfChar(codeBlock, '[');
      var innerEnd := LastIndexOfChar(codeBlock, ']');
      if innerStart >= 0 && innerEnd >= 0 && innerEnd > innerStart then
        assert false;
        codeBlock
      else
        codeBlock
  }

  /** On the bracket path the result is exactly the slice from the first `[`
      to the last `]`, both included. */
  lemma BracketPathSlice(response: string, i: int, j: int)
    requires 0 <= i < j < |response|
    requires response[i] == '[' && '[' !in response[..i]
    requires response[j] == ']' && ']' !in response[j + 1..]
    ensures CleanJsonResponse(response) == response[i..j + 1]
  {
    FirstOpenAt(response, i);
    LastCloseAt(response, j);
    BracketBranch(response);
  }

  lemma FirstOpenAt(response: string, i: int)
    requires 0 <= i < |response| && response[i] == '[' && '[' !in response[..i]
    ensures IndexOfChar(response, '[') == i
  {
    assert forall k :: 0 <= k < i ==> response[k] == response[..i][k];
  }

  lemma LastCloseAt(response: string, j: int)
    requires 0 <= j < |response| && response[j] == ']' && ']' !in response[j + 1..]
    ensures LastIndexOfChar(response, ']') == j
  {
    assert forall k :: j < k < |response| ==> response[k] == response[j + 1..][k - j - 1];
  }

  /** The first branch of `cleanJsonResponse`. */
  lemma BracketBranch(response: string)
    requires 0 <= IndexOfChar(response, '[') < LastIndexOfChar(response, ']')
    ensures CleanJsonResponse(response) == response[IndexOfChar(response, '[')..LastIndexOfChar(response, ']') + 1]
  {
    BracketTest(response);
    assert CleanJsonResponse(response) == BracketCut(response);
  }

  /** Text that already starts with `[` and ends with `]` passes unchanged. */
  lemma CleanKeepsArray(s: string)
    requires |s| >= 2 && s[0] == '[' && s[|s| - 1] == ']'
    ensures CleanJsonResponse(s) == s
  {
    assert IndexOfChar(s, '[') == 0;
    assert LastIndexOfChar(s, ']') == |s| - 1;
    BracketBranch(s);
  }

  /** Cleaning twice is cleaning once whenever the bracket path applies. */
  lemma CleanIdempotentOnBracketPath(s: string)
    requires HasBracketPair(s)
    ensures CleanJsonResponse(CleanJsonResponse(s)) == CleanJsonResponse(s)
  {
    CleanKeepsArray(CleanJsonResponse(s));
  }

  /** With no ordered bracket pair and no fence the reply passes through. */
  lemma PassThrough(s: string)
    requires !HasBracketPair(s) && !Contains(s, FENCE)
    ensures CleanJsonResponse(s) == s
  {
  }
}
