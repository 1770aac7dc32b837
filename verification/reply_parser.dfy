/**
  The decoder that recovers a structured analysis from the chat model's
  free-text reply (`PromptCoachRAG.analyze_prompt`, the loop over the reply's
  lines and the defaulting after it).

  The reply is split on newlines and scanned top to bottom with a small state
  machine. A line that mentions a section keyword switches the current section
  and is consumed; other lines are added to the field of the current section.
  `Scan` is the scan as a fold over the lines, `Finish` the decision between
  the raw and the structured result, and `ParseReply` the loop that the code
  runs, proved to compute `Parse`.
 */
module ReplyParser {
  import opened Wrappers
  import opened Strings

  /** The value of `current_section`: `None` or one of the five section names. */
  datatype Mode = NoSection | Assessment | Strengths | Weaknesses | Refined | Explanation

  /** The loop's variables: the current section and the five accumulated fields. */
  datatype ParseState = ParseState(
    mode: Mode,
    assessment: string,
    strengths: seq<string>,
    weaknesses: seq<string>,
    refined: string,
    explanation: string)

  const Start := ParseState(NoSection, "", [], [], "", "")

  /** The structured analysis handed back to the caller. */
  datatype Analysis = Analysis(
    assessment: string,
    strengths: seq<string>,
    weaknesses: seq<string>,
    refinedPrompt: string,
    explanation: string)

  /** A parsed reply: the structured fields, or the reply itself when no section was found. */
  datatype Parsed = Structured(analysis: Analysis) | Raw(text: string)

  const DefaultAssessment := "This prompt could be improved based on Google's prompt engineering guide."
  const DefaultStrengths := ["The prompt provides a basic instruction"]
  const DefaultWeaknesses := ["The prompt lacks specificity", "Context could be improved"]
  const DefaultExplanation := "The refined prompt adds more specificity and context."

  function DefaultRefined(prompt: string): string
  {
    "Improved version of: " + prompt
  }

  // ---------------------------------------------------------------------------
  // Section headers

  /** The keywords that announce each section. */
  function Keywords(m: Mode): seq<string>
  {
    match m
    case NoSection => []
    case Assessment => ["assessment", "overall"]
    case Strengths => ["strength"]
    case Weaknesses => ["weakness", "improvement"]
    case Refined => ["refined", "improved"]
    case Explanation => ["explanation", "changes"]
  }

  /** The order in which the sections' keywords are tried: lower goes first. */
  function Priority(m: Mode): nat
  {
    match m
    case Assessment => 0
    case Strengths => 1
    case Weaknesses => 2
    case Refined => 3
    case Explanation => 4
    case NoSection => 5
  }

  /** The lower-cased text `low` contains one of the keywords of `m`. */
  predicate Mentions(low: string, m: Mode)
  {
    exists k :: 0 <= k < |Keywords(m)| && Contains(low, Keywords(m)[k])
  }

  /** The keyword tests, in the order the code tries them, with the section each announces. */
  const KeywordTable: seq<(string, Mode)> := [
    ("assessment", Assessment), ("overall", Assessment),
    ("strength", Strengths),
    ("weakness", Weaknesses), ("improvement", Weaknesses),
    ("refined", Refined), ("improved", Refined),
    ("explanation", Explanation), ("changes", Explanation)]

  /** The section of the first keyword, from entry `i` of the table on, that `low` contains. */
  function FirstKeyword(low: string, i: nat): (r: Option<Mode>)
    ensures r.None? <==> forall j :: i <= j < |KeywordTable| ==> !Contains(low, KeywordTable[j].0)
    ensures r != Some(NoSection)
    decreases |KeywordTable| - i
  {
    if i >= |KeywordTable| then None
    else if Contains(low, KeywordTable[i].0) then Some(KeywordTable[i].1)
    else FirstKeyword(low, i + 1)
  }

  /** The section a (stripped) line announces, if any: none exactly when the line holds no keyword in any case. */
  function Header(line: string): (r: Option<Mode>)
    ensures r != Some(NoSection)
    ensures r.None? <==> forall j :: 0 <= j < |KeywordTable| ==> !Contains(Lower(line), KeywordTable[j].0)
  {
    FirstKeyword(Lower(line), 0)
  }

  /** The code's chain of `if`/`elif` keyword tests on the lower-cased line. */
  function Chain(low: string): Option<Mode>
  {
    if Contains(low, "assessment") || Contains(low, "overall") then Some(Assessment)
    else if Contains(low, "strength") then Some(Strengths)
    else if Contains(low, "weakness") || Contains(low, "improvement") then Some(Weaknesses)
    else if Contains(low, "refined") || Contains(low, "improved") then Some(Refined)
    else if Contains(low, "explanation") || Contains(low, "changes") then Some(Explanation)
    else None
  }

  /** The table walk gives the result of the code's chain of `if`/`elif` keyword tests. */
  lemma HeaderChain(line: string)
    ensures Header(line) == Chain(Lower(line))
  {
  }

  /**
    A line announces section `m` exactly when it mentions a keyword of `m` and
    no keyword of a section tried before `m`; it announces none exactly when it
    mentions no keyword at all.
   */
  lemma HeaderByPriority(line: string, m: Mode)
    ensures Header(line) == Some(m) <==>
      m != NoSection && Mentions(Lower(line), m)
      && forall m': Mode :: Priority(m') < Priority(m) ==> !Mentions(Lower(line), m')
    ensures Header(line) == None <==> forall m': Mode :: !Mentions(Lower(line), m')
  {
    HeaderChain(line);
    ChainByPriority(Lower(line), m);
  }

  lemma ChainByPriority(low: string, m: Mode)
    ensures Chain(low) == Some(m) <==>
      m != NoSection && Mentions(low, m) && forall m': Mode :: Priority(m') < Priority(m) ==> !Mentions(low, m')
    ensures Chain(low) == None <==> forall m': Mode :: !Mentions(low, m')
  {
    MentionsKeywords(low);
  }

  /** What `Mentions` says about each section, keyword by keyword. */
  lemma MentionsKeywords(low: string)
    ensures Mentions(low, Assessment) <==> Contains(low, "assessment") || Contains(low, "overall")
    ensures Mentions(low, Strengths) <==> Contains(low, "strength")
    ensures Mentions(low, Weaknesses) <==> Contains(low, "weakness") || Contains(low, "improvement")
    ensures Mentions(low, Refined) <==> Contains(low, "refined") || Contains(low, "improved")
    ensures Mentions(low, Explanation) <==> Contains(low, "explanation") || Contains(low, "changes")
    ensures !Mentions(low, NoSection)
  {
    assert Keywords(Assessment)[0] == "assessment" && Keywords(Assessment)[1] == "overall";
    assert Keywords(Strengths)[0] == "strength";
    assert Keywords(Weaknesses)[0] == "weakness" && Keywords(Weaknesses)[1] == "improvement";
    assert Keywords(Refined)[0] == "refined" && Keywords(Refined)[1] == "improved";
    assert Keywords(Explanation)[0] == "explanation" && Keywords(Explanation)[1] == "changes";
  }

  // ---------------------------------------------------------------------------
  // One line of the scan

  /** A header line: switch section; an assessment header also sets the assessment. */
  function Enter(st: ParseState, m: Mode, line: string): ParseState
  {
    if m == Assessment then
      st.(mode := Assessment, assessment := if ':' in line then Strip(AfterFirst(line, ':')) else "")
    else
      st.(mode := m)
  }

  predicate IsBullet(line: string)
  {
    |line| > 0 && line[0] == '-'
  }

  /** The item of a bullet line: the marker removed and the rest stripped. */
  function BulletItem(line: string): string
    requires IsBullet(line)
  {
    Strip(line[1..])
  }

  /** A (stripped, non-blank) content line: added to the field of the current section. */
  function Absorb(st: ParseState, line: string): ParseState
  {
    match st.mode
    case Assessment => if st.assessment == [] then st.(assessment := line) else st
    case Strengths => if IsBullet(line) then st.(strengths := st.strengths + [BulletItem(line)]) else st
    case Weaknesses => if IsBullet(line) then st.(weaknesses := st.weaknesses + [BulletItem(line)]) else st
    case Refined => st.(refined := st.refined + line + " ")
    case Explanation => st.(explanation := st.explanation + line + " ")
    case NoSection => st
  }

  /**
    One iteration of the scan over a raw line of the reply. A blank line changes
    nothing; the lists only ever grow, by at most one item per line.
   */
  function Step(st: ParseState, raw: string): (r: ParseState)
    ensures AllSpace(raw) ==> r == st
    ensures st.strengths <= r.strengths && |r.strengths| <= |st.strengths| + 1
    ensures st.weaknesses <= r.weaknesses && |r.weaknesses| <= |st.weaknesses| + 1
  {
    var line := Strip(raw);
    if line == [] then st
    else match Header(line)
      case Some(m) => Enter(st, m, line)
      case None => Absorb(st, line)
  }

  /** The scan from state `st` over `lines`, in order: the lists keep what they held and gain at most one item per line. */
  function Scan(st: ParseState, lines: seq<string>): (r: ParseState)
    ensures st.strengths <= r.strengths && |r.strengths| <= |st.strengths| + |lines|
    ensures st.weaknesses <= r.weaknesses && |r.weaknesses| <= |st.weaknesses| + |lines|
  {
    if lines == [] then st else Step(Scan(st, lines[..|lines| - 1]), lines[|lines| - 1])
  }

  lemma ScanSnoc(st: ParseState, lines: seq<string>, raw: string)
    ensures Scan(st, lines + [raw]) == Step(Scan(st, lines), raw)
  {
    assert (lines + [raw])[..|lines|] == lines;
  }

  lemma ScanPrefix(st: ParseState, lines: seq<string>, i: nat)
    requires i < |lines|
    ensures Scan(st, lines[..i + 1]) == Step(Scan(st, lines[..i]), lines[i])
  {
    assert lines[..i + 1][..i] == lines[..i];
  }

  // ---------------------------------------------------------------------------
  // After the scan

  predicate Captured(st: ParseState)
  {
    st.assessment != [] || st.strengths != [] || st.weaknesses != [] || st.refined != [] || st.explanation != []
  }

  /**
    The result of a scan: the reply itself when no field captured anything,
    otherwise every field, with each empty one replaced by its default, so that
    none is empty.
   */
  function Finish(st: ParseState, text: string, prompt: string): (r: Parsed)
    ensures r.Raw? <==> !Captured(st)
    ensures r.Raw? ==> r.text == text
    ensures r.Structured? ==>
      && r.analysis.assessment != []
      && r.analysis.strengths != []
      && r.analysis.weaknesses != []
      && r.analysis.refinedPrompt != []
      && r.analysis.explanation != []
    ensures r.Structured? ==>
      && (st.assessment != [] ==> r.analysis.assessment == st.assessment)
      && (st.strengths != [] ==> r.analysis.strengths == st.strengths)
      && (st.weaknesses != [] ==> r.analysis.weaknesses == st.weaknesses)
      && (st.strengths == [] ==> r.analysis.strengths == DefaultStrengths)
      && (st.weaknesses == [] ==> r.analysis.weaknesses == DefaultWeaknesses)
      && (st.assessment == [] ==> r.analysis.assessment == DefaultAssessment)
      && (Strip(st.refined) != [] ==> r.analysis.refinedPrompt == Strip(st.refined))
      && (Strip(st.refined) == [] ==> r.analysis.refinedPrompt == DefaultRefined(prompt))
      && (Strip(st.explanation) != [] ==> r.analysis.explanation == Strip(st.explanation))
      && (Strip(st.explanation) == [] ==> r.analysis.explanation == DefaultExplanation)
  {
    if !Captured(st) then Raw(text)
    else
      var refined := Strip(st.refined);
      var explanation := Strip(st.explanation);
      Structured(Analysis(
        if st.assessment != [] then st.assessment else DefaultAssessment,
        if st.strengths != [] then st.strengths else DefaultStrengths,
        if st.weaknesses != [] then st.weaknesses else DefaultWeaknesses,
        if refined != [] then refined else DefaultRefined(prompt),
        if explanation != [] then explanation else DefaultExplanation))
  }

  function Lines(text: string): seq<string>
  {
    Split(text, '\n')
  }

  /**
    The decoder: scan the reply's lines from the start state, then finish. The
    reply comes back verbatim exactly when the scan captured nothing; otherwise
    no field of the analysis is empty.
   */
  function Parse(text: string, prompt: string): (r: Parsed)
    ensures r.Raw? <==> !Captured(Scan(Start, Lines(text)))
    ensures r.Raw? ==> r.text == text
    ensures r.Structured? ==>
      && r.analysis.assessment != [] && r.analysis.strengths != [] && r.analysis.weaknesses != []
      && r.analysis.refinedPrompt != [] && r.analysis.explanation != []
  {
    Finish(Scan(Start, Lines(text)), text, prompt)
  }

  /**
    The loop of `analyze_prompt` as written: local variables for the section
    and the fields, `continue` after blank lines and headers.
   */
  method ParseReply(text: string, prompt: string) returns (r: Parsed)
    ensures r == Parse(text, prompt)
  {
    var lines := Split(text, '\n');
    var assessment: string := "";
    var strengths: seq<string> := [];
    var weaknesses: seq<string> := [];
    var refined: string := "";
    var explanation: string := "";
    var section := NoSection;
    for i := 0 to |lines|
      invariant ParseState(section, assessment, strengths, weaknesses, refined, explanation)
        == Scan(Start, lines[..i])
    {
      ScanPrefix(Start, lines, i);
      ghost var before := ParseState(section, assessment, strengths, weaknesses, refined, explanation);
      var line := Strip(lines[i]);
      if line == [] {
        BlankLineIgnored(before, lines[i]);
        continue;
      }
      var low := Lower(line);
      HeaderChain(line);
      if Contains(low, "assessment") || Contains(low, "overall") {
        section := Assessment;
        assessment := if ':' in line then Strip(AfterFirst(line, ':')) else "";
        StepHeader(before, lines[i], Assessment);
        continue;
      } else if Contains(low, "strength") {
        section := Strengths;
        StepHeader(before, lines[i], Strengths);
        continue;
      } else if Contains(low, "weakness") || Contains(low, "improvement") {
        section := Weaknesses;
        StepHeader(before, lines[i], Weaknesses);
        continue;
      } else if Contains(low, "refined") || Contains(low, "improved") {
        section := Refined;
        StepHeader(before, lines[i], Refined);
        continue;
      } else if Contains(low, "explanation") || Contains(low, "changes") {
        section := Explanation;
        StepHeader(before, lines[i], Explanation);
        continue;
      }

      StepContent(before, lines[i]);
      if section == Assessment && assessment == [] {
        assessment := line;
      } else if section == Strengths && line[0] == '-' {
        strengths := strengths + [Strip(line[1..])];
      } else if section == Weaknesses && line[0] == '-' {
        weaknesses := weaknesses + [Strip(line[1..])];
      } else if section == Refined {
        refined := refined + line + " ";
      } else if section == Explanation {
        explanation := explanation + line + " ";
      }
    }
    assert lines[..|lines|] == lines;

    if assessment == [] && strengths == [] && weaknesses == [] && refined == [] && explanation == [] {
      return Raw(text);
    }
    var refinedPrompt := Strip(refined);
    if refinedPrompt == [] {
      refinedPrompt := DefaultRefined(prompt);
    }
    var why := Strip(explanation);
    if why == [] {
      why := DefaultExplanation;
    }
    r := Structured(Analysis(
      if assessment != [] then assessment else DefaultAssessment,
      if strengths != [] then strengths else DefaultStrengths,
      if weaknesses != [] then weaknesses else DefaultWeaknesses,
      refinedPrompt,
      why));
  }

  // ---------------------------------------------------------------------------
  // Properties of the scan

  /** A line that is blank after stripping changes neither the section nor any field. */
  lemma BlankLineIgnored(st: ParseState, raw: string)
    requires AllSpace(raw)
    ensures Step(st, raw) == st
  {
  }

  /** The lines that are not blank after stripping, in order. */
  function NonBlank(lines: seq<string>): (r: seq<string>)
    ensures |r| <= |lines|
  {
    if lines == [] then []
    else
      var last := lines[|lines| - 1];
      NonBlank(lines[..|lines| - 1]) + (if AllSpace(last) then [] else [last])
  }

  /** Wherever they stand, blank lines do not affect the scan: it sees only the non-blank lines. */
  lemma {:induction false} BlankLinesIgnored(st: ParseState, lines: seq<string>)
    ensures Scan(st, lines) == Scan(st, NonBlank(lines))
  {
    if lines != [] {
      var init, last := lines[..|lines| - 1], lines[|lines| - 1];
      BlankLinesIgnored(st, init);
      assert Scan(st, lines) == Step(Scan(st, init), last);
      if AllSpace(last) {
        BlankLineIgnored(Scan(st, init), last);
        assert NonBlank(lines) == NonBlank(init);
      } else {
        assert NonBlank(lines) == NonBlank(init) + [last];
        ScanSnoc(st, NonBlank(init), last);
      }
    }
  }

  /**
    A header line switches the section and is not added as content: the lists
    and the prose fields stay as they were; the assessment changes only for an
    assessment header, which sets it to the stripped text after the first colon,
    or to "" when the line has no colon.
   */
  lemma HeaderConsumed(st: ParseState, raw: string, m: Mode)
    requires Strip(raw) != [] && Header(Strip(raw)) == Some(m)
    ensures Step(st, raw).mode == m
    ensures Step(st, raw).strengths == st.strengths && Step(st, raw).weaknesses == st.weaknesses
    ensures Step(st, raw).refined == st.refined && Step(st, raw).explanation == st.explanation
    ensures m != Assessment ==> Step(st, raw).assessment == st.assessment
    ensures m == Assessment ==>
      Step(st, raw).assessment == (var line := Strip(raw); if ':' in line then Strip(AfterFirst(line, ':')) else "")
  {
  }

  /** "Overall strengths" announces the assessment: the assessment keywords are tried first. */
  lemma OverallStrengthsIsAssessment()
    ensures Header("Overall strengths") == Some(Assessment)
  {
    var low := Lower("Overall strengths");
    assert low[..7] == "overall";
    assert OccursAt(low, "overall", 0);
    HeaderChain("Overall strengths");
  }

  /** A non-blank line that announces no section. */
  predicate IsContent(raw: string)
  {
    Strip(raw) != [] && Header(Strip(raw)) == None
  }

  /** Every one of `lines` is a content line. */
  predicate AllContent(lines: seq<string>)
  {
    lines == [] || (AllContent(lines[..|lines| - 1]) && IsContent(lines[|lines| - 1]))
  }

  /** A header line enters its section. */
  lemma StepHeader(st: ParseState, raw: string, m: Mode)
    requires Strip(raw) != [] && Header(Strip(raw)) == Some(m)
    ensures Step(st, raw) == Enter(st, m, Strip(raw))
  {
  }

  /** A content line is handed, stripped, to the field of the current section. */
  lemma StepContent(st: ParseState, raw: string)
    requires IsContent(raw)
    ensures Step(st, raw) == Absorb(st, Strip(raw))
  {
  }

  lemma {:induction false} AllContentAt(lines: seq<string>, k: nat)
    requires AllContent(lines) && k < |lines|
    ensures IsContent(lines[k])
  {
    if k < |lines| - 1 {
      AllContentAt(lines[..|lines| - 1], k);
    }
  }

  /** Scanning two runs of lines is scanning the first, then the second from where it left off. */
  lemma {:induction false} ScanAppend(st: ParseState, a: seq<string>, b: seq<string>)
    ensures Scan(st, a + b) == Scan(Scan(st, a), b)
  {
    if b == [] {
      assert a + b == a;
    } else {
      var init := b[..|b| - 1];
      ScanAppend(st, a, init);
      assert (a + b)[..|a + b| - 1] == a + init;
    }
  }

  /**
    In the assessment section, a run of content lines sets the assessment to
    its first line, stripped, when the assessment is still empty; every other
    line is dropped, and nothing else changes.
   */
  lemma {:induction false} AssessmentCollected(st: ParseState, lines: seq<string>)
    requires st.mode == Assessment && AllContent(lines)
    ensures Scan(st, lines) == if st.assessment == [] && lines != [] then st.(assessment := Strip(lines[0])) else st
  {
    if lines != [] {
      var init, last := lines[..|lines| - 1], lines[|lines| - 1];
      AssessmentCollected(st, init);
      StepContent(Scan(st, init), last);
      if init != [] {
        AllContentAt(lines, 0);
        assert init[0] == lines[0];
      }
    }
  }

  /**
    After an assessment header, the assessment is the stripped text after the
    header's colon; when that is empty (or there is no colon), it is the first
    content line that follows, stripped, and it stays empty only when no
    content line follows.
   */
  lemma AssessmentAfterHeader(st: ParseState, header: string, lines: seq<string>)
    requires Strip(header) != [] && Header(Strip(header)) == Some(Assessment)
    requires AllContent(lines)
    ensures var line := Strip(header);
      var t := if ':' in line then Strip(AfterFirst(line, ':')) else "";
      Scan(st, [header] + lines) ==
        st.(mode := Assessment, assessment := if t != [] then t else if lines != [] then Strip(lines[0]) else [])
  {
    ScanAppend(st, [header], lines);
    ScanSnoc(st, [], header);
    assert [] + [header] == [header];
    StepHeader(st, header, Assessment);
    AssessmentCollected(Scan(st, [header]), lines);
  }

  /** The items of the bullet lines among `lines`, in order: marker removed, stripped. */
  function Items(lines: seq<string>): (r: seq<string>)
    ensures |r| <= |lines|
  {
    if lines == [] then []
    else
      var line := Strip(lines[|lines| - 1]);
      Items(lines[..|lines| - 1]) + (if IsBullet(line) then [BulletItem(line)] else [])
  }

  /**
    In the strengths or weaknesses section, a run of content lines appends the
    items of its bullet lines, in input order, to that section's list, skips
    every other line, and changes nothing else.
   */
  lemma {:induction false} BulletsCollected(st: ParseState, lines: seq<string>)
    requires st.mode == Strengths || st.mode == Weaknesses
    requires AllContent(lines)
    ensures Scan(st, lines) ==
      if st.mode == Strengths then st.(strengths := st.strengths + Items(lines))
      else st.(weaknesses := st.weaknesses + Items(lines))
  {
    if lines != [] {
      var init := lines[..|lines| - 1];
      BulletsCollected(st, init);
      StepContent(Scan(st, init), lines[|lines| - 1]);
      BulletAbsorb(st, Items(init), Strip(lines[|lines| - 1]));
    }
  }

  lemma BulletAbsorb(st: ParseState, items: seq<string>, line: string)
    requires st.mode == Strengths || st.mode == Weaknesses
    ensures var mid := if st.mode == Strengths then st.(strengths := st.strengths + items)
                       else st.(weaknesses := st.weaknesses + items);
      var more := items + if IsBullet(line) then [BulletItem(line)] else [];
      Absorb(mid, line) ==
        if st.mode == Strengths then st.(strengths := st.strengths + more)
        else st.(weaknesses := st.weaknesses + more)
  {
    if IsBullet(line) {
      assert st.strengths + items + [BulletItem(line)] == st.strengths + (items + [BulletItem(line)]);
      assert st.weaknesses + items + [BulletItem(line)] == st.weaknesses + (items + [BulletItem(line)]);
    } else {
      assert items + [] == items;
    }
  }

  /** The text the refined or explanation section accumulates from `lines`: each stripped line followed by one space. */
  function Prose(lines: seq<string>): string
  {
    if lines == [] then [] else Prose(lines[..|lines| - 1]) + Strip(lines[|lines| - 1]) + " "
  }

  /** In the refined or explanation section, every content line is appended to that field; nothing else changes. */
  lemma {:induction false} ProseCollected(st: ParseState, lines: seq<string>)
    requires st.mode == Refined || st.mode == Explanation
    requires AllContent(lines)
    ensures Scan(st, lines) ==
      if st.mode == Refined then st.(refined := st.refined + Prose(lines))
      else st.(explanation := st.explanation + Prose(lines))
  {
    if lines != [] {
      var init, last := lines[..|lines| - 1], lines[|lines| - 1];
      ProseCollected(st, init);
      StepContent(Scan(st, init), last);
      ProseAbsorb(st, Prose(init), Strip(last));
    }
  }

  lemma ProseAbsorb(st: ParseState, prose: string, line: string)
    requires st.mode == Refined || st.mode == Explanation
    ensures var mid := if st.mode == Refined then st.(refined := st.refined + prose)
                       else st.(explanation := st.explanation + prose);
      Absorb(mid, line) ==
        if st.mode == Refined then st.(refined := st.refined + (prose + line + " "))
        else st.(explanation := st.explanation + (prose + line + " "))
  {
    assert st.refined + prose + line + " " == st.refined + (prose + line + " ");
    assert st.explanation + prose + line + " " == st.explanation + (prose + line + " ");
  }

  /** Each line stripped. */
  function Stripped(lines: seq<string>): (r: seq<string>)
    ensures |r| == |lines|
  {
    if lines == [] then [] else Stripped(lines[..|lines| - 1]) + [Strip(lines[|lines| - 1])]
  }

  lemma {:induction false} ProseIsJoin(lines: seq<string>)
    requires |lines| >= 1
    ensures Prose(lines) == Join(Stripped(lines), " ") + " "
  {
    var init, x := lines[..|lines| - 1], Strip(lines[|lines| - 1]);
    assert Stripped(lines) == Stripped(init) + [x];
    assert Prose(lines) == Prose(init) + x + " ";
    if |init| == 0 {
      assert Stripped(lines) == [x];
    } else {
      ProseIsJoin(init);
      JoinSnoc(Stripped(init), " ", x);
    }
  }

  lemma {:induction false} StrippedAt(lines: seq<string>, k: nat)
    requires k < |lines|
    ensures Stripped(lines)[k] == Strip(lines[k])
  {
    if k < |lines| - 1 {
      StrippedAt(lines[..|lines| - 1], k);
    }
  }

  /** Once trimmed, the accumulated prose is the stripped lines joined by single spaces. */
  lemma ProseTrimmed(lines: seq<string>)
    requires |lines| >= 1
    requires forall k :: 0 <= k < |lines| ==> Strip(lines[k]) != []
    ensures Strip(Prose(lines)) == Join(Stripped(lines), " ")
  {
    var parts := Stripped(lines);
    var n := |parts|;
    assert Strip(lines[0]) != [] && Strip(lines[n - 1]) != [];
    StrippedAt(lines, 0);
    StrippedAt(lines, n - 1);
    assert parts[0] != [] && parts[n - 1] != [];
    JoinEnds(parts, " ");
    var j := Join(parts, " ");
    StripTrailingSpace(j);
    ProseIsJoin(lines);
    assert Prose(lines) == j + " ";
  }

  /** A scan over lines none of which announces a section captures nothing. */
  lemma {:induction false} NoHeadersNoCapture(lines: seq<string>)
    requires forall k :: 0 <= k < |lines| ==> Header(Strip(lines[k])) == None
    ensures Scan(Start, lines) == Start
  {
    if lines != [] {
      NoHeadersNoCapture(lines[..|lines| - 1]);
    }
  }

  /** A reply none of whose lines mentions a section keyword comes back verbatim, as the raw variant. */
  lemma NoKeywordsIsRaw(text: string, prompt: string)
    requires forall k :: 0 <= k < |Lines(text)| ==> Header(Strip(Lines(text)[k])) == None
    ensures Parse(text, prompt) == Raw(text)
  {
    NoHeadersNoCapture(Lines(text));
  }

  /** Every item is its own strip. */
  predicate AllStripped(items: seq<string>)
  {
    items == [] || (AllStripped(items[..|items| - 1]) && Strip(items[|items| - 1]) == items[|items| - 1])
  }

  lemma {:induction false} AllStrippedAt(items: seq<string>, k: nat)
    requires AllStripped(items) && k < |items|
    ensures Strip(items[k]) == items[k]
  {
    if k < |items| - 1 {
      AllStrippedAt(items[..|items| - 1], k);
    }
  }

  /** What the scan accumulates is already trimmed: stripped items and assessment, prose starting with text. */
  predicate Tidy(st: ParseState)
  {
    && Strip(st.assessment) == st.assessment
    && AllStripped(st.strengths)
    && AllStripped(st.weaknesses)
    && (st.refined == [] || !IsSpace(st.refined[0]))
    && (st.explanation == [] || !IsSpace(st.explanation[0]))
  }

  lemma EnterTidy(st: ParseState, m: Mode, line: string)
    requires Tidy(st)
    ensures Tidy(Enter(st, m, line))
  {
    if m == Assessment && ':' in line {
      StripIdempotent(AfterFirst(line, ':'));
    }
  }

  lemma AbsorbTidy(st: ParseState, line: string)
    requires Tidy(st) && line != [] && Strip(line) == line
    ensures Tidy(Absorb(st, line))
  {
    match st.mode
    case Strengths =>
      if IsBullet(line) {
        var item := BulletItem(line);
        StripIdempotent(line[1..]);
        assert (st.strengths + [item])[..|st.strengths|] == st.strengths;
        assert AllStripped(st.strengths + [item]);
      }
    case Weaknesses =>
      if IsBullet(line) {
        var item := BulletItem(line);
        StripIdempotent(line[1..]);
        assert (st.weaknesses + [item])[..|st.weaknesses|] == st.weaknesses;
        assert AllStripped(st.weaknesses + [item]);
      }
    case Refined =>
      assert (st.refined + line + " ")[0] == if st.refined == [] then line[0] else st.refined[0];
    case Explanation =>
      assert (st.explanation + line + " ")[0] == if st.explanation == [] then line[0] else st.explanation[0];
    case Assessment =>
    case NoSection =>
  }

  lemma StepTidy(st: ParseState, raw: string)
    requires Tidy(st)
    ensures Tidy(Step(st, raw))
  {
    var line := Strip(raw);
    if line != [] {
      StripIdempotent(raw);
      match Header(line)
      case Some(m) => EnterTidy(st, m, line);
      case None => AbsorbTidy(st, line);
    }
  }

  lemma {:induction false} ScanTidy(st: ParseState, lines: seq<string>)
    requires Tidy(st)
    ensures Tidy(Scan(st, lines))
  {
    if lines != [] {
      ScanTidy(st, lines[..|lines| - 1]);
      StepTidy(Scan(st, lines[..|lines| - 1]), lines[|lines| - 1]);
    }
  }

  /**
    Captured text is never replaced by a default: a captured refined prompt or
    explanation comes back trimmed, and a captured assessment and every captured
    strength and weakness come back stripped.
   */
  lemma ParseKeepsCaptured(text: string, prompt: string)
    ensures var st := Scan(Start, Lines(text));
      Parse(text, prompt).Structured? ==>
        var a := Parse(text, prompt).analysis;
        && (st.refined != [] ==> a.refinedPrompt == Strip(st.refined))
        && (st.explanation != [] ==> a.explanation == Strip(st.explanation))
        && (st.assessment != [] ==> a.assessment == st.assessment && Strip(a.assessment) == a.assessment)
        && (st.strengths != [] ==>
              a.strengths == st.strengths &&
              forall k :: 0 <= k < |a.strengths| ==> Strip(a.strengths[k]) == a.strengths[k])
        && (st.weaknesses != [] ==>
              a.weaknesses == st.weaknesses &&
              forall k :: 0 <= k < |a.weaknesses| ==> Strip(a.weaknesses[k]) == a.weaknesses[k])
  {
    var st := Scan(Start, Lines(text));
    ScanTidy(Start, Lines(text));
    if st.refined != [] {
      assert !AllSpace(st.refined);
    }
    if st.explanation != [] {
      assert !AllSpace(st.explanation);
    }
    forall k | 0 <= k < |st.strengths| ensures Strip(st.strengths[k]) == st.strengths[k] {
      AllStrippedAt(st.strengths, k);
    }
    forall k | 0 <= k < |st.weaknesses| ensures Strip(st.weaknesses[k]) == st.weaknesses[k] {
      AllStrippedAt(st.weaknesses, k);
    }
  }

  lemma ExampleLines()
    ensures Lines("Strengths:\n- clear\n- concise") == ["Strengths:", "- clear", "- concise"]
  {
    var lines := ["Strengths:", "- clear", "- concise"];
    assert lines[1..] == ["- clear", "- concise"] && lines[1..][1..] == ["- concise"];
    assert Join(lines, "\n") == "Strengths:\n- clear\n- concise";
    JoinSplit(lines, '\n');
  }

  lemma ExampleHeader()
    ensures Strip("Strengths:") == "Strengths:" && Header("Strengths:") == Some(Strengths)
  {
    StripUntouched("Strengths:");
    ExampleLower();
    ExampleChain();
    HeaderChain("Strengths:");
  }

  lemma ExampleLower()
    ensures Lower("Strengths:") == "strengths:"
  {
  }

  lemma ExampleChain()
    ensures Chain("strengths:") == Some(Strengths)
  {
    assert OccursAt("strengths:", "strength", 0);
  }

  lemma ClearNoHeader()
    ensures Header("- clear") == None
  {
  }

  lemma ExampleClear()
    ensures IsContent("- clear") && IsBullet(Strip("- clear")) && BulletItem(Strip("- clear")) == "clear"
  {
    StripUntouched("- clear");
    ClearNoHeader();
    assert "- clear"[1..] == " clear";
    StripUntouched("clear");
  }

  lemma ConciseNoHeader()
    ensures Header("- concise") == None
  {
  }

  lemma ExampleConcise()
    ensures IsContent("- concise") && IsBullet(Strip("- concise")) && BulletItem(Strip("- concise")) == "concise"
  {
    StripUntouched("- concise");
    ConciseNoHeader();
    assert "- concise"[1..] == " concise";
    StripUntouched("concise");
  }

  lemma ExampleSteps()
    ensures Step(Start, "Strengths:") == Start.(mode := Strengths)
    ensures Step(Start.(mode := Strengths), "- clear") == Start.(mode := Strengths, strengths := ["clear"])
    ensures Step(Start.(mode := Strengths, strengths := ["clear"]), "- concise") ==
      Start.(mode := Strengths, strengths := ["clear", "concise"])
  {
    ExampleHeader();
    StepHeader(Start, "Strengths:", Strengths);
    ExampleClear();
    StepContent(Start.(mode := Strengths), "- clear");
    ExampleConcise();
    StepContent(Start.(mode := Strengths, strengths := ["clear"]), "- concise");
  }

  lemma ExampleScan()
    ensures Scan(Start, ["Strengths:", "- clear", "- concise"]) ==
      Start.(mode := Strengths, strengths := ["clear", "concise"])
  {
    ExampleSteps();
    ScanSnoc(Start, [], "Strengths:");
    ScanSnoc(Start, ["Strengths:"], "- clear");
    ScanSnoc(Start, ["Strengths:", "- clear"], "- concise");
  }

  /** "Strengths:", "- clear", "- concise" gives the strengths ["clear", "concise"], every other field defaulted. */
  lemma StrengthsExample(prompt: string)
    ensures Parse("Strengths:\n- clear\n- concise", prompt) == Structured(Analysis(
      DefaultAssessment, ["clear", "concise"], DefaultWeaknesses, DefaultRefined(prompt), DefaultExplanation))
  {
    ExampleLines();
    ExampleScan();
  }
}
