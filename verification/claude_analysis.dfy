/** The pure part of `analyzeResume` in lib/ai/claude.ts: trimming the
    model's reply, stripping a markdown code fence, validating the parsed
    object, defaulting the soft-skills score, and the fixed payload that
    replaces any failure. The SDK call is an outcome parameter and
    `JSON.parse` with zod's type checks is a parser parameter. */
module ClaudeAnalysis {
  import opened Wrappers
  import opened Lines

  /** The code points JavaScript's `trim` and the regular expression class
      `\s` treat as white space: the WhiteSpace and LineTerminator
      productions of ECMAScript. */
  predicate IsWhitespace(c: char) {
    var n := c as int;
    n == 0x09 || n == 0x0A || n == 0x0B || n == 0x0C || n == 0x0D || n == 0x20
    || n == 0xA0 || n == 0x1680 || (0x2000 <= n <= 0x200A) || n == 0x2028 || n == 0x2029
    || n == 0x202F || n == 0x205F || n == 0x3000 || n == 0xFEFF
  }

  /** Removes all leading white space. */
  function TrimStart(s: string): (r: string)
    ensures |r| <= |s|
    decreases |s|
  {
    if |s| > 0 && IsWhitespace(s[0]) then TrimStart(s[1..]) else s
  }

  /** `TrimStart` drops a run of white space from the front and stops at
      the first other character. */
  lemma {:induction false} TrimStartSpec(s: string)
    ensures TrimStart(s) == s[|s| - |TrimStart(s)|..]
    ensures forall k :: 0 <= k < |s| - |TrimStart(s)| ==> IsWhitespace(s[k])
    ensures |TrimStart(s)| > 0 ==> !IsWhitespace(TrimStart(s)[0])
    decreases |s|
  {
    if |s| > 0 && IsWhitespace(s[0]) {
      TrimStartSpec(s[1..]);
      var r := TrimStart(s[1..]);
      assert TrimStart(s) == r;
      assert s[1..][|s| - 1 - |r|..] == s[|s| - |r|..];
      forall k | 1 <= k < |s| - |r|
        ensures IsWhitespace(s[k])
      {
        assert s[k] == s[1..][k - 1];
      }
    }
  }

  /** Removes all trailing white space. */
  function TrimEnd(s: string): (r: string)
    ensures |r| <= |s|
    decreases |s|
  {
    if |s| > 0 && IsWhitespace(s[|s| - 1]) then TrimEnd(s[..|s| - 1]) else s
  }

  /** `TrimEnd` drops a run of white space from the back and stops at the
      last other character. */
  lemma {:induction false} TrimEndSpec(s: string)
    ensures TrimEnd(s) == s[..|TrimEnd(s)|]
    ensures forall k :: |TrimEnd(s)| <= k < |s| ==> IsWhitespace(s[k])
    ensures |TrimEnd(s)| > 0 ==> !IsWhitespace(TrimEnd(s)[|TrimEnd(s)| - 1])
    decreases |s|
  {
    if |s| > 0 && IsWhitespace(s[|s| - 1]) {
      var front := s[..|s| - 1];
      TrimEndSpec(front);
      var r := TrimEnd(front);
      assert TrimEnd(s) == r;
      assert front[..|r|] == s[..|r|];
      forall k | |r| <= k < |s| - 1
        ensures IsWhitespace(s[k])
      {
        assert s[k] == front[k];
      }
    }
  }

  /** `s` is `r` with only white space around it, `r` starting at `lo`. */
  predicate Framed(s: string, lo: nat, r: string) {
    && lo + |r| <= |s|
    && s[lo..lo + |r|] == r
    && (forall k :: 0 <= k < lo ==> IsWhitespace(s[k]))
    && (forall k :: lo + |r| <= k < |s| ==> IsWhitespace(s[k]))
  }

  /** Trimming the start and then the end leaves the text framed by the
      white space it removed, with no white space at either end. */
  lemma TrimFrame(s: string)
    ensures Framed(s, |s| - |TrimStart(s)|, TrimEnd(TrimStart(s)))
    ensures |TrimEnd(TrimStart(s))| > 0 ==>
              !IsWhitespace(TrimEnd(TrimStart(s))[0]) && !IsWhitespace(TrimEnd(TrimStart(s))[|TrimEnd(TrimStart(s))| - 1])
  {
    var t := TrimStart(s);
    var r := TrimEnd(t);
    var lo := |s| - |t|;
    TrimStartSpec(s);
    TrimEndSpec(t);
    assert s[lo..lo + |r|] == r by {
      assert t == s[lo..];
      assert r == t[..|r|];
    }
    assert forall k :: lo + |r| <= k < |s| ==> IsWhitespace(s[k]) by {
      forall k | lo + |r| <= k < |s|
        ensures IsWhitespace(s[k])
      {
        assert s[k] == t[k - lo];
      }
    }
    assert |r| > 0 ==> r[0] == t[0];
  }

  /** `String.prototype.trim`. */
  function Trim(s: string): (r: string)
    ensures Framed(s, |s| - |TrimStart(s)|, r)
    ensures |r| > 0 ==> !IsWhitespace(r[0]) && !IsWhitespace(r[|r| - 1])
  {
    TrimFrame(s);
    TrimEnd(TrimStart(s))
  }

  predicate AllWhitespace(s: string) {
    forall k :: 0 <= k < |s| ==> IsWhitespace(s[k])
  }

  /** Trimming the start of white space followed by a text that does not
      start with white space leaves exactly that text. */
  lemma TrimStartOfPadded(ws: string, t: string)
    requires AllWhitespace(ws)
    requires |t| > 0 ==> !IsWhitespace(t[0])
    ensures TrimStart(ws + t) == t
  {
    var s := ws + t;
    var r := TrimStart(s);
    var d := |s| - |r|;
    TrimStartSpec(s);
    assert |t| > 0 ==> s[|ws|] == t[0];
    assert |r| > 0 ==> r[0] == s[d];
    assert forall k :: 0 <= k < |ws| ==> s[k] == ws[k];
    assert d == |ws|;
    assert r == s[|ws|..];
    assert s[|ws|..] == t;
  }

  /** Trimming the end of a text that does not end with white space,
      followed by white space, leaves exactly that text. */
  lemma TrimEndOfPadded(t: string, ws: string)
    requires AllWhitespace(ws)
    requires |t| > 0 ==> !IsWhitespace(t[|t| - 1])
    ensures TrimEnd(t + ws) == t
  {
    var s := t + ws;
    var r := TrimEnd(s);
    TrimEndSpec(s);
    assert |t| > 0 ==> s[|t| - 1] == t[|t| - 1];
    assert |r| > 0 ==> r[|r| - 1] == s[|r| - 1];
    assert forall k :: |t| <= k < |s| ==> s[k] == ws[k - |t|];
    assert |r| == |t|;
    assert r == s[..|t|];
    assert s[..|t|] == t;
  }

  /** White space around a text that starts and ends with something else
      is exactly what `trim` removes. */
  lemma TrimOfPadded(lead: string, t: string, trail: string)
    requires AllWhitespace(lead) && AllWhitespace(trail)
    requires |t| > 0 && !IsWhitespace(t[0]) && !IsWhitespace(t[|t| - 1])
    ensures Trim(lead + t + trail) == t
  {
    assert lead + t + trail == lead + (t + trail);
    assert TrimStart(lead + (t + trail)) == t + trail by {
      TrimStartOfPadded(lead, t + trail);
    }
    TrimEndOfPadded(t, trail);
  }

  const JsonFence: string := "```json"
  const Fence: string := "```"

  /** `s.replace(/^FENCE\s*\/, '')` for a string that starts with the fence:
      the fence and the white space after it are removed. */
  function StripLeadingFence(s: string, fence: string): (r: string)
    requires StartsWith(s, fence)
    ensures |r| <= |s| - |fence| && r == s[|s| - |r|..]
    ensures forall k :: |fence| <= k < |s| - |r| ==> IsWhitespace(s[k])
    ensures |r| > 0 ==> !IsWhitespace(r[0])
  {
    var rest := s[|fence|..];
    TrimStartSpec(rest);
    assert forall k :: |fence| <= k < |s| ==> s[k] == rest[k - |fence|];
    TrimStart(rest)
  }

  /** Position `i` starts a match of `/\s*```$/` in `s`: white space from
      `i` up to a fence that ends the string. */
  predicate TrailingFenceAt(s: string, i: nat) {
    && EndsWith(s, Fence)
    && i <= |s| - |Fence|
    && forall k :: i <= k < |s| - |Fence| ==> IsWhitespace(s[k])
  }

  /** `s.replace(/\s*```$/, '')`: a closing fence and the white space
      before it are removed when present. */
  function StripTrailingFence(s: string): (r: string)
    ensures EndsWith(s, Fence) ==> TrailingFenceAt(s, |r|) && r == s[..|r|]
    ensures !EndsWith(s, Fence) ==> r == s
  {
    if EndsWith(s, Fence) then
      var body := s[..|s| - |Fence|];
      TrimEndSpec(body);
      assert forall k :: 0 <= k < |body| ==> s[k] == body[k];
      TrimEnd(body)
    else s
  }

  /** `replace` removes the leftmost match: no match starts before the
      point where the stripped text ends. */
  lemma StripTrailingFenceIsLeftmost(s: string, i: nat)
    requires TrailingFenceAt(s, i)
    ensures |StripTrailingFence(s)| <= i
  {
    var body := s[..|s| - |Fence|];
    var r := TrimEnd(body);
    TrimEndSpec(body);
    assert |r| == 0 || (r[|r| - 1] == s[|r| - 1] && !IsWhitespace(s[|r| - 1]));
  }

  /** The text handed to `JSON.parse`: trimmed, then without a leading
      ```` ```json ```` or ```` ``` ```` fence and a trailing ```` ``` ````
      fence. */
  function CleanResponse(text: string): string {
    var trimmed := Trim(text);
    if StartsWith(trimmed, JsonFence) then StripTrailingFence(StripLeadingFence(trimmed, JsonFence))
    else if StartsWith(trimmed, Fence) then StripTrailingFence(StripLeadingFence(trimmed, Fence))
    else trimmed
  }

  /** A reply that does not start with a fence reaches the parser exactly as
      trimmed. */
  lemma UnfencedReplyOnlyTrimmed(text: string)
    requires !StartsWith(Trim(text), Fence)
    ensures CleanResponse(text) == Trim(text)
  {
    JsonFenceIsFence(Trim(text));
  }

  /** ```` ```json ```` is itself fenced. */
  lemma JsonFenceIsFence(s: string)
    ensures StartsWith(s, JsonFence) ==> StartsWith(s, Fence)
  {
    if StartsWith(s, JsonFence) {
      assert s[..3] == s[..7][..3];
    }
  }

  /** What the parser leaves between the fences is a slice of the trimmed
      reply that starts after the opening fence and its white space. */
  lemma FencedReplyIsInner(text: string)
    requires StartsWith(Trim(text), Fence)
    ensures exists lo :: |Fence| <= lo && InfixAt(Trim(text), lo, CleanResponse(text))
  {
    CleanResponseFenced(text);
    if StartsWith(Trim(text), JsonFence) {
      StrippedIsInfix(Trim(text), JsonFence);
    } else {
      StrippedIsInfix(Trim(text), Fence);
    }
  }

  /** Stripping an opening and a closing fence leaves a slice that starts
      after the opening fence. */
  lemma StrippedIsInfix(s: string, fence: string)
    requires StartsWith(s, fence)
    ensures |fence| <= |s| - |StripLeadingFence(s, fence)|
    ensures InfixAt(s, |s| - |StripLeadingFence(s, fence)|, StripTrailingFence(StripLeadingFence(s, fence)))
  {
    var inner := StripLeadingFence(s, fence);
    var cleaned := StripTrailingFence(inner);
    var lo := |s| - |inner|;
    assert |cleaned| <= |inner| && cleaned == inner[..|cleaned|];
    assert s[lo..lo + |cleaned|] == cleaned by {
      assert inner == s[lo..];
      forall k | 0 <= k < |cleaned|
        ensures s[lo + k] == cleaned[k]
      {
        assert cleaned[k] == inner[k];
      }
    }
  }

  /** On a fenced reply, cleaning strips the opening fence that matched
      and then the closing fence. */
  lemma CleanResponseFenced(text: string)
    requires StartsWith(Trim(text), Fence)
    ensures StartsWith(Trim(text), JsonFence) ==>
              CleanResponse(text) == StripTrailingFence(StripLeadingFence(Trim(text), JsonFence))
    ensures !StartsWith(Trim(text), JsonFence) ==>
              CleanResponse(text) == StripTrailingFence(StripLeadingFence(Trim(text), Fence))
  {
  }

  /** `r` occurs in `s` at position `lo`. */
  predicate InfixAt(s: string, lo: nat, r: string) {
    lo + |r| <= |s| && s[lo..lo + |r|] == r
  }

  /** A JSON property as the schema sees it: absent, of the declared type,
      or present with another type (including `null`). */
  datatype Field<T> = Missing | Present(value: T) | Mistyped

  /** The object `JSON.parse` produced, field by field. */
  datatype ParsedObject = ParsedObject(
    name: Field<string>,
    email: Field<string>,
    skills: Field<seq<string>>,
    overallScore: Field<real>,
    softSkillsScore: Field<real>,
    explanations: Field<map<string, string>>)

  /** `ResumeAnalysis`, the type the schema infers. */
  datatype ResumeAnalysis = ResumeAnalysis(
    name: Option<string>,
    email: Option<string>,
    skills: seq<string>,
    overallScore: Option<real>,
    softSkillsScore: Option<real>,
    explanations: Option<map<string, string>>)

  /** What the SDK call came to: it threw, or its first content block is not
      text, or it is text. */
  datatype ModelReply = RequestFailed | NonTextContent | TextContent(text: string)

  const MinScore: real := 0.0
  const MaxScore: real := 100.0
  const DefaultSoftSkillsScore: real := 65.0

  /** The two explanations of the failure payload. */
  const FailureMessage: string := "Failed to analyze resume. Please try again."
  const ExpectedFormat: string := "Expected format: {name, email, skills[], overall_score, soft_skills_score, explanations{}}"

  predicate ScoreInRange(x: real) {
    MinScore <= x <= MaxScore
  }

  /** A present score passes `z.number().min(0).max(100)`. */
  predicate ScoreFieldValid(f: Field<real>) {
    f.Present? ==> ScoreInRange(f.value)
  }

  predicate WellTyped(obj: ParsedObject) {
    && !obj.name.Mistyped? && !obj.email.Mistyped? && !obj.skills.Mistyped?
    && !obj.overallScore.Mistyped? && !obj.softSkillsScore.Mistyped? && !obj.explanations.Mistyped?
  }

  function Optional<T>(f: Field<T>): Option<T>
    requires !f.Mistyped?
  {
    if f.Present? then Some(f.value) else None
  }

  /** `ResumeAnalysisSchema.parse`: fails on a mistyped field or an
      out-of-range score; `skills` defaults to the empty list. */
  function Validate(obj: ParsedObject): (result: Option<ResumeAnalysis>)
    ensures result.Some? <==>
              WellTyped(obj) && ScoreFieldValid(obj.overallScore) && ScoreFieldValid(obj.softSkillsScore)
    ensures result.Some? ==> result.value.skills == (if obj.skills.Present? then obj.skills.value else [])
    ensures result.Some? ==>
              && result.value.name == Optional(obj.name)
              && result.value.email == Optional(obj.email)
              && result.value.overallScore == Optional(obj.overallScore)
              && result.value.softSkillsScore == Optional(obj.softSkillsScore)
              && result.value.explanations == Optional(obj.explanations)
    ensures result.Some? && result.value.overallScore.Some? ==> ScoreInRange(result.value.overallScore.value)
    ensures result.Some? && result.value.softSkillsScore.Some? ==> ScoreInRange(result.value.softSkillsScore.value)
  {
    if !WellTyped(obj) || !ScoreFieldValid(obj.overallScore) || !ScoreFieldValid(obj.softSkillsScore) then None
    else Some(ResumeAnalysis(
      Optional(obj.name),
      Optional(obj.email),
      if obj.skills.Present? then obj.skills.value else [],
      Optional(obj.overallScore),
      Optional(obj.softSkillsScore),
      Optional(obj.explanations)))
  }

  /** `if (!validated.soft_skills_score) validated.soft_skills_score = 65`:
      a missing or zero score becomes 65, nothing else changes. */
  function DefaultSoftSkills(a: ResumeAnalysis): (r: ResumeAnalysis)
    ensures r.softSkillsScore.Some? && r.softSkillsScore.value != 0.0
    ensures a.softSkillsScore.None? || a.softSkillsScore.value == 0.0 ==>
              r.softSkillsScore == Some(DefaultSoftSkillsScore)
    ensures a.softSkillsScore.Some? && a.softSkillsScore.value != 0.0 ==> r == a
    ensures r == a.(softSkillsScore := r.softSkillsScore)
  {
    if a.softSkillsScore.None? || a.softSkillsScore.value == 0.0 then a.(softSkillsScore := Some(DefaultSoftSkillsScore))
    else a
  }

  /** The payload returned on any failure. */
  function FailurePayload(): ResumeAnalysis {
    ResumeAnalysis(
      Some("Parse Error"),
      None,
      ["Error parsing resume"],
      Some(50.0),
      Some(DefaultSoftSkillsScore),
      Some(map[
        "error" := FailureMessage,
        "example" := ExpectedFormat]))
  }

  /** `analyzeResume`, given what the SDK returned and the parser. */
  function AnalyzeResume(reply: ModelReply, parse: string -> Option<ParsedObject>): (r: ResumeAnalysis)
    ensures r.softSkillsScore.Some? && r.softSkillsScore.value != 0.0 && ScoreInRange(r.softSkillsScore.value)
    ensures r.overallScore.Some? ==> ScoreInRange(r.overallScore.value)
    ensures !reply.TextContent? ==> r == FailurePayload()
    ensures reply.TextContent? && parse(CleanResponse(reply.text)).None? ==> r == FailurePayload()
  {
    match reply
    case TextContent(text) =>
      (match parse(CleanResponse(text))
       case None => FailurePayload()
       case Some(obj) =>
         match Validate(obj)
         case None => FailurePayload()
         case Some(a) => DefaultSoftSkills(a))
    case _ => FailurePayload()
  }

  /** On the success path the validated fields come through, `skills`
      defaulting to the empty list and the soft-skills score to 65 when it
      was missing or zero. */
  lemma AnalysisSucceeds(text: string, parse: string -> Option<ParsedObject>, obj: ParsedObject)
    requires parse(CleanResponse(text)) == Some(obj)
    requires WellTyped(obj) && ScoreFieldValid(obj.overallScore) && ScoreFieldValid(obj.softSkillsScore)
    ensures var r := AnalyzeResume(TextContent(text), parse);
      && r.name == Optional(obj.name)
      && r.email == Optional(obj.email)
      && r.skills == (if obj.skills.Present? then obj.skills.value else [])
      && r.overallScore == Optional(obj.overallScore)
      && r.explanations == Optional(obj.explanations)
      && r.softSkillsScore == (if obj.softSkillsScore.Present? && obj.softSkillsScore.value != 0.0
                               then Some(obj.softSkillsScore.value) else Some(DefaultSoftSkillsScore))
  {
  }

  /** A score outside [0, 100], or a mistyped field, yields the failure
      payload. */
  lemma InvalidObjectFails(text: string, parse: string -> Option<ParsedObject>, obj: ParsedObject)
    requires parse(CleanResponse(text)) == Some(obj)
    requires !WellTyped(obj) || !ScoreFieldValid(obj.overallScore) || !ScoreFieldValid(obj.softSkillsScore)
    ensures AnalyzeResume(TextContent(text), parse) == FailurePayload()
  {
  }

  /** A reply made of an opening fence, white space, a body, white space
      and a closing fence, with any white space around it all, reaches the
      parser as exactly the body, provided the body starts and ends with
      something other than white space. After a bare ```` ``` ```` fence
      the white space must not be empty: otherwise a body starting with
      `json` would be read as the ```` ```json ```` fence. */
  lemma FencedReplyIsBody(lead: string, fence: string, gap: string, body: string, tail: string, trail: string)
    requires fence == JsonFence || (fence == Fence && |gap| > 0)
    requires AllWhitespace(lead) && AllWhitespace(gap) && AllWhitespace(tail) && AllWhitespace(trail)
    requires |body| > 0 && !IsWhitespace(body[0]) && !IsWhitespace(body[|body| - 1])
    ensures CleanResponse(lead + fence + gap + body + tail + Fence + trail) == body
  {
    var x := fence + (gap + (body + tail + Fence));
    var text := lead + fence + gap + body + tail + Fence + trail;
    assert text == lead + x + trail;
    assert Trim(text) == x by {
      assert x[0] == '`' && x[|x| - 1] == '`';
      TrimOfPadded(lead, x, trail);
    }
    FenceBlock(fence, gap, body, tail);
    CleanResponseOpening(text, fence);
  }

  /** The trimmed reply of `FencedReplyIsBody`: it opens with `fence`, and
      stripping both fences leaves the body. */
  lemma FenceBlock(fence: string, gap: string, body: string, tail: string)
    requires fence == JsonFence || (fence == Fence && |gap| > 0)
    requires AllWhitespace(gap) && AllWhitespace(tail)
    requires |body| > 0 && !IsWhitespace(body[0]) && !IsWhitespace(body[|body| - 1])
    ensures OpensWith(fence + (gap + (body + tail + Fence)), fence)
    ensures StripTrailingFence(StripLeadingFence(fence + (gap + (body + tail + Fence)), fence)) == body
  {
    var rest := body + tail + Fence;
    var x := fence + (gap + rest);
    assert StartsWith(x, fence) by {
      assert x[..|fence|] == fence;
    }
    if fence == Fence {
      assert IsWhitespace(x[3]) by {
        assert x[3] == gap[0];
      }
      assert !StartsWith(x, JsonFence) by {
        assert JsonFence[3] == 'j' && !IsWhitespace('j');
        if |x| >= |JsonFence| {
          assert x[..|JsonFence|][3] == x[3];
        }
      }
    }
    assert StripLeadingFence(x, fence) == rest by {
      assert x[|fence|..] == gap + rest;
      TrimStartOfPadded(gap, rest);
    }
    assert StripTrailingFence(rest) == body by {
      assert rest[..|rest| - |Fence|] == body + tail;
      assert rest[|rest| - |Fence|..] == Fence;
      TrimEndOfPadded(body, tail);
    }
  }

  /** The trimmed reply opens with `fence`, and that is the fence the
      cleaning matches first. */
  predicate OpensWith(trimmed: string, fence: string) {
    || (fence == JsonFence && StartsWith(trimmed, JsonFence))
    || (fence == Fence && StartsWith(trimmed, Fence) && !StartsWith(trimmed, JsonFence))
  }

  /** Cleaning a reply that opens with a fence strips that fence and then
      the closing one. */
  lemma CleanResponseOpening(text: string, fence: string)
    requires OpensWith(Trim(text), fence)
    ensures StartsWith(Trim(text), fence)
    ensures CleanResponse(text) == StripTrailingFence(StripLeadingFence(Trim(text), fence))
  {
  }

  /** Trimming twice is trimming once. */
  lemma TrimIdempotent(s: string)
    ensures Trim(Trim(s)) == Trim(s)
  {
    var r := Trim(s);
    if |r| > 0 {
      TrimStartOfPadded("", r);
      assert "" + r == r;
      TrimEndOfPadded(r, "");
      assert r + "" == r;
    }
  }
}
