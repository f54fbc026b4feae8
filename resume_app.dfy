/**
 * The list handling of the resume-input page: the curated-skill loader, the
 * comma join of the raw skills, the split of the cleaned skill text, and the
 * comma joins of the multi-valued fields shown in the details table.
 *
 * The named-entity extraction and the skill-cleaning service are outside this
 * model; their results enter as parameters.
 */
module ResumeApp {
  import opened Chars
  import opened PyText

  // ---------------------------------------------------------------------------
  // load_valid_skills
  // ---------------------------------------------------------------------------

  /** What reading the skills file yields: its lines (each still carrying its line break), or an error. */
  datatype SkillFile = Lines(lines: seq<string>) | Unreadable

  /** `[line.strip() for line in file if line.strip()]`. */
  function KeepSkillLines(lines: seq<string>): (skills: seq<string>)
    ensures |skills| <= |lines|
  {
    if lines == [] then []
    else
      KeptLine(lines[0]) + KeepSkillLines(lines[1..])
  }

  /** `load_valid_skills`: the stripped non-blank lines in file order, or `[]` when reading fails. */
  function LoadValidSkills(file: SkillFile): (skills: seq<string>)
    ensures file.Unreadable? ==> skills == []
    ensures forall k :: 0 <= k < |skills| ==> skills[k] != [] && Trimmed(skills[k])
  {
    match file
    case Lines(lines) => KeepSkillLinesTrimmed(lines); KeepSkillLines(lines)
    case Unreadable => []
  }

  /** What one line contributes: its stripped form, or nothing when the line is blank. */
  function KeptLine(line: string): (kept: seq<string>)
    ensures |kept| <= 1
    ensures kept == [] <==> AllSpace(line)
    ensures kept != [] ==> kept[0] != [] && Trimmed(kept[0])
  {
    StripRemovesPadding(line);
    var t := Strip(line);
    if t != [] then [t] else []
  }

  /** Every loaded skill is non-empty and has no surrounding whitespace. */
  lemma {:induction false} KeepSkillLinesTrimmed(lines: seq<string>)
    ensures forall k :: 0 <= k < |KeepSkillLines(lines)| ==>
      KeepSkillLines(lines)[k] != [] && Trimmed(KeepSkillLines(lines)[k])
  {
    if lines != [] {
      KeepSkillLinesTrimmed(lines[1..]);
    }
  }

  /** File order is kept: the skills of two stretches of lines are those of the first, then those of the second. */
  lemma {:induction false} KeepSkillLinesAppend(a: seq<string>, b: seq<string>)
    ensures KeepSkillLines(a + b) == KeepSkillLines(a) + KeepSkillLines(b)
  {
    if a == [] {
      assert a + b == b;
    } else {
      calc {
        KeepSkillLines(a + b);
        { assert (a + b)[0] == a[0]; assert (a + b)[1..] == a[1..] + b; }
        KeptLine(a[0]) + KeepSkillLines(a[1..] + b);
        { KeepSkillLinesAppend(a[1..], b); }
        KeptLine(a[0]) + (KeepSkillLines(a[1..]) + KeepSkillLines(b));
        (KeptLine(a[0]) + KeepSkillLines(a[1..])) + KeepSkillLines(b);
        KeepSkillLines(a) + KeepSkillLines(b);
      }
    }
  }

  /** A skill is loaded exactly when it is the non-empty stripped form of some line. */
  lemma {:induction false} KeepSkillLinesMembers(lines: seq<string>, skill: string)
    ensures skill in KeepSkillLines(lines)
      <==> skill != [] && exists k :: 0 <= k < |lines| && Strip(lines[k]) == skill
  {
    if lines != [] {
      KeepSkillLinesMembers(lines[1..], skill);
      if skill != [] && Strip(lines[0]) != skill
        && (exists k :: 0 <= k < |lines| && Strip(lines[k]) == skill) {
        var k :| 0 <= k < |lines| && Strip(lines[k]) == skill;
        assert lines[1..][k - 1] == lines[k];
      }
    }
  }

  /** Only blank lines are dropped: with none, every line is kept, stripped, in place. */
  lemma {:induction false} KeepSkillLinesNoBlank(lines: seq<string>)
    requires forall k :: 0 <= k < |lines| ==> Strip(lines[k]) != []
    ensures |KeepSkillLines(lines)| == |lines|
    ensures forall k :: 0 <= k < |lines| ==> KeepSkillLines(lines)[k] == Strip(lines[k])
  {
    if lines != [] {
      var rest := lines[1..];
      assert forall k :: 0 <= k < |rest| ==> rest[k] == lines[k + 1];
      KeepSkillLinesNoBlank(rest);
      var kept := KeepSkillLines(lines);
      assert kept == [Strip(lines[0])] + KeepSkillLines(rest);
      forall k | 0 <= k < |lines|
        ensures kept[k] == Strip(lines[k])
      {
        if k > 0 {
          assert kept[k] == KeepSkillLines(rest)[k - 1];
        }
      }
    }
  }

  /** Loading the loaded list again changes nothing. */
  lemma {:induction false} KeepSkillLinesIdempotent(lines: seq<string>)
    ensures KeepSkillLines(KeepSkillLines(lines)) == KeepSkillLines(lines)
  {
    if lines != [] {
      var t := Strip(lines[0]);
      var head := if t != [] then [t] else [];
      KeepSkillLinesIdempotent(lines[1..]);
      KeepSkillLinesAppend(head, KeepSkillLines(lines[1..]));
      if t != [] {
        StripIdempotent(lines[0]);
        assert KeepSkillLines([t]) == [t] by {
          assert [t][1..] == [];
        }
      }
    }
  }

  // ---------------------------------------------------------------------------
  // The details table
  // ---------------------------------------------------------------------------

  /**
   * A graduation-year entry. The extractor only ever produces text; the number
   * case covers callers that pass integers to `str()` and is never reached by the page.
   */
  datatype GradYear = YearText(text: string) | YearNumber(value: int)

  function DigitChar(d: nat): (c: char)
    requires d < 10
    ensures IsDigit(c)
  {
    (('0' as int) + d) as char
  }

  function DigitValue(c: char): nat
    requires IsDigit(c)
  {
    (c as int) - ('0' as int)
  }

  /** The number a string of decimal digits denotes. */
  function DecimalValue(s: string): nat
    requires AllDigits(s)
  {
    if s == [] then 0 else DecimalValue(s[..|s| - 1]) * 10 + DigitValue(s[|s| - 1])
  }

  /** Python's `str(n)` for `n >= 0`: decimal digits, no leading zero, denoting `n`. */
  function DecimalString(n: nat): (s: string)
    ensures s != [] && AllDigits(s)
    ensures DecimalValue(s) == n
    ensures s[0] == '0' ==> s == "0"
  {
    if n < 10 then [DigitChar(n)]
    else
      var front := DecimalString(n / 10);
      var s := front + [DigitChar(n % 10)];
      assert s[..|s| - 1] == front;
      s
  }

  /** Python's `str(y)`: text stays as it is; a number is written in decimal, with a minus sign when negative. */
  function YearToString(y: GradYear): (s: string)
    ensures y.YearText? ==> s == y.text
    ensures y.YearNumber? && y.value >= 0 ==>
      && s != [] && AllDigits(s) && DecimalValue(s) == y.value
      && (s[0] == '0' ==> s == "0")
    ensures y.YearNumber? && y.value < 0 ==>
      && |s| >= 2 && s[0] == '-' && AllDigits(s[1..]) && DecimalValue(s[1..]) == -y.value
      && s[1] != '0'
  {
    match y
    case YearText(t) => t
    case YearNumber(n) =>
      if n >= 0 then DecimalString(n)
      else
        var digits := DecimalString(-n);
        var s := "-" + digits;
        assert s[1..] == digits;
        s
  }

  /** `[str(y) for y in years]`: one string per year, in the same order. */
  function YearStrings(years: seq<GradYear>): (strs: seq<string>)
    ensures |strs| == |years|
    ensures forall k :: 0 <= k < |years| && years[k].YearText? ==> strs[k] == years[k].text
    ensures forall k :: 0 <= k < |years| && years[k].YearNumber? ==> strs[k] != [] && ',' !in strs[k]
  {
    var strs := seq(|years|, k requires 0 <= k < |years| => YearToString(years[k]));
    assert forall k :: 0 <= k < |years| && years[k].YearNumber? ==> ',' !in strs[k] by {
      forall k | 0 <= k < |years| && years[k].YearNumber?
        ensures ',' !in strs[k]
      {
        var t := strs[k];
        if years[k].value >= 0 {
          assert forall p :: 0 <= p < |t| ==> t[p] != ',';
        } else {
          assert t[0] == '-';
          assert forall p :: 1 <= p < |t| ==> t[1..][p - 1] == t[p];
        }
      }
    }
    strs
  }

  /**
   * The tuple returned by the entity extractor. Name, phone number and
   * qualifications are shown as they come, so their types are left open.
   */
  datatype Extraction<Name, Phone, Degrees> = Extraction(
    fileName: string,
    name: Name,
    phone: Phone,
    emails: seq<string>,
    qualifications: Degrees,
    gradYears: seq<GradYear>,
    locations: seq<string>,
    skills: seq<string>,
    universities: seq<string>,
    companies: seq<string>,
    designations: seq<string>)

  /** The `details` dictionary, one field per table row. */
  datatype Details<Name, Phone, Degrees> = Details(
    name: Name,
    phone: Phone,
    email: string,
    qualifications: Degrees,
    graduationYear: string,
    location: string,
    skillsRaw: string,
    skillsCleaned: string,
    university: string,
    company: string,
    designation: string)

  /**
   * The details table built from the extractor's result and the cleaning
   * service's reply: name, phone, qualifications and the cleaned skill text
   * are shown as they come; every list is shown as its `", "`-join.
   */
  function BuildDetails<N, P, Q>(r: Extraction<N, P, Q>, cleanedSkillsText: string): (d: Details<N, P, Q>)
    ensures d.name == r.name && d.phone == r.phone && d.qualifications == r.qualifications
    ensures d.skillsCleaned == cleanedSkillsText
  {
    Details(
      r.name,
      r.phone,
      Join(r.emails, ", "),
      r.qualifications,
      Join(YearStrings(r.gradYears), ", "),
      Join(r.locations, ", "),
      Join(r.skills, ", "),
      cleanedSkillsText,
      Join(r.universities, ", "),
      Join(r.companies, ", "),
      Join(r.designations, ", "))
  }

  /** Items a comma join keeps recoverable: at least one, each trimmed and comma-free. */
  ghost predicate Recoverable(items: seq<string>) {
    |items| >= 1 && forall k :: 0 <= k < |items| ==> Trimmed(items[k]) && ',' !in items[k]
  }

  /** One joined field: empty when there are no items, and read back in full when they are recoverable. */
  lemma JoinedFieldReadsBack(items: seq<string>)
    ensures items == [] ==> Join(items, ", ") == ""
    ensures Recoverable(items) ==> SplitAndStrip(Join(items, ", ")) == items
  {
    if Recoverable(items) {
      SplitStripJoin(items);
    }
  }

  /**
   * Every joined field lists its extractor values completely and in their
   * original order: splitting the shown text on commas gives them back. Each
   * field stands on its own; a field with no values is shown as "".
   */
  lemma DetailsListFieldsInOrder<N, P, Q>(r: Extraction<N, P, Q>, cleanedSkillsText: string)
    ensures var d := BuildDetails(r, cleanedSkillsText);
      && (r.emails == [] ==> d.email == "")
      && (Recoverable(r.emails) ==> SplitAndStrip(d.email) == r.emails)
      && (r.gradYears == [] ==> d.graduationYear == "")
      && (Recoverable(YearStrings(r.gradYears)) ==> SplitAndStrip(d.graduationYear) == YearStrings(r.gradYears))
      && (r.locations == [] ==> d.location == "")
      && (Recoverable(r.locations) ==> SplitAndStrip(d.location) == r.locations)
      && (r.skills == [] ==> d.skillsRaw == "")
      && (Recoverable(r.skills) ==> SplitAndStrip(d.skillsRaw) == r.skills)
      && (r.universities == [] ==> d.university == "")
      && (Recoverable(r.universities) ==> SplitAndStrip(d.university) == r.universities)
      && (r.companies == [] ==> d.company == "")
      && (Recoverable(r.companies) ==> SplitAndStrip(d.company) == r.companies)
      && (r.designations == [] ==> d.designation == "")
      && (Recoverable(r.designations) ==> SplitAndStrip(d.designation) == r.designations)
  {
    JoinedFieldReadsBack(r.emails);
    JoinedFieldReadsBack(YearStrings(r.gradYears));
    JoinedFieldReadsBack(r.locations);
    JoinedFieldReadsBack(r.skills);
    JoinedFieldReadsBack(r.universities);
    JoinedFieldReadsBack(r.companies);
    JoinedFieldReadsBack(r.designations);
  }

  /**
   * When every raw skill is trimmed and comma-free and the cleaning service
   * hands back the raw text unchanged, the cleaned list equals the raw list;
   * with no raw skills it is `[""]`, not `[]`.
   */
  lemma UnchangedCleaningKeepsSkills(rawSkills: seq<string>)
    requires forall k :: 0 <= k < |rawSkills| ==> Trimmed(rawSkills[k]) && ',' !in rawSkills[k]
    ensures rawSkills != [] ==> SplitAndStrip(Join(rawSkills, ", ")) == rawSkills
    ensures rawSkills == [] ==> SplitAndStrip(Join(rawSkills, ", ")) == [""]
  {
    if rawSkills != [] {
      SplitStripJoin(rawSkills);
    } else {
      SplitEmptyText();
    }
  }
}
