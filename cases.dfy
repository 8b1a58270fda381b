/**
 * One refresh case as the dashboard holds it: the stored columns it reads
 * and the two columns it derives when the table is loaded, the SLA date and
 * the CASE STATUS display text.
 */
module Cases {
  import opened Text

  /** Instants are pandas `datetime64[ns]` values: nanoseconds since the epoch. */
  const NanosPerDay: int := 86_400_000_000_000

  /** The SLA window added to the creation date. */
  const SlaWindowDays: int := 90

  const Refreshed: string := "KYC status Refreshed"
  const Absorbed: string := "Profile updates absorbed"

  /** A dashboard row. `caseId` is the `outreach_agent_status` column, which
      the dashboard shows as CASE ID. The text columns are already cast to
      `str`; a date is `None` when it coerced to NaT. */
  datatype Row = Row(
    name: string,
    refreshStatus: string,
    caseId: string,
    documentName: string,
    created: Option<int>,
    updated: Option<int>)

  /** The `case_sla_date` column: the creation instant plus 90 days, NaT when
      the creation date is NaT. */
  function SlaDate(r: Row): (d: Option<int>)
    ensures d.Some? <==> r.created.Some?
    ensures d.Some? ==> d.value - r.created.value == 90 * NanosPerDay
  {
    match r.created
    case None => None
    case Some(t) => Some(t + SlaWindowDays * NanosPerDay)
  }

  /** `s` spells "yes" in any mix of upper and lower case. */
  predicate SpellsYes(s: string)
  {
    |s| == 3 && s[0] in "yY" && s[1] in "eE" && s[2] in "sS"
  }

  /** `s` spells "no" in any mix of upper and lower case. */
  predicate SpellsNo(s: string)
  {
    |s| == 2 && s[0] in "nN" && s[1] in "oO"
  }

  /** The CASE STATUS display text computed from `refresh_status`. */
  function StatusDisplay(status: string): (d: string)
  {
    if Lower(status) == "yes" then Refreshed
    else if Lower(status) == "no" then Absorbed
    else status
  }

  /** Lower-casing gives "yes" exactly for the spellings of "yes". */
  lemma {:induction false} LowerYes(s: string)
    ensures Lower(s) == "yes" <==> SpellsYes(s)
  {
    if |s| == 3 {
      var l := Lower(s);
      assert l[0] == LowerChar(s[0]) && l[1] == LowerChar(s[1]) && l[2] == LowerChar(s[2]);
      if SpellsYes(s) {
        assert l == "yes";
      }
    }
  }

  /** Lower-casing gives "no" exactly for the spellings of "no". */
  lemma {:induction false} LowerNo(s: string)
    ensures Lower(s) == "no" <==> SpellsNo(s)
  {
    if |s| == 2 {
      var l := Lower(s);
      assert l[0] == LowerChar(s[0]) && l[1] == LowerChar(s[1]);
      if SpellsNo(s) {
        assert l == "no";
      }
    }
  }

  /** Every spelling of "yes" shows "KYC status Refreshed", every spelling of
      "no" shows "Profile updates absorbed", and any other value is shown as it
      is. */
  lemma StatusDisplayCases(status: string)
    ensures SpellsYes(status) ==> StatusDisplay(status) == Refreshed
    ensures SpellsNo(status) ==> StatusDisplay(status) == Absorbed
    ensures !SpellsYes(status) && !SpellsNo(status) ==> StatusDisplay(status) == status
  {
    LowerYes(status);
    LowerNo(status);
  }

  /** The display text is the value itself exactly when the value is not a
      spelling of "yes" or "no"; so a display of "KYC status Refreshed" comes
      from a "yes" or from a status already holding that text. */
  lemma StatusDisplayKeepsOthers(status: string)
    ensures StatusDisplay(status) == status <==> !SpellsYes(status) && !SpellsNo(status)
    ensures StatusDisplay(status) == Refreshed <==> SpellsYes(status) || status == Refreshed
    ensures StatusDisplay(status) == Absorbed <==> SpellsNo(status) || status == Absorbed
  {
    LowerYes(status);
    LowerNo(status);
  }

  /** The dashboard's text columns. */
  datatype TextColumn = ClientName | MaterialChange | CaseStatus | CaseIdColumn | DataSource

  /** The dashboard's date columns. */
  datatype DateColumn = CreationDate | SlaDateColumn | CompleteDate

  /** The value a text filter searches. */
  function TextOf(r: Row, c: TextColumn): string
  {
    match c
    case ClientName => r.name
    case MaterialChange => r.refreshStatus
    case CaseStatus => StatusDisplay(r.refreshStatus)
    case CaseIdColumn => r.caseId
    case DataSource => r.documentName
  }

  /** The value a date filter compares. */
  function DateOf(r: Row, c: DateColumn): Option<int>
  {
    match c
    case CreationDate => r.created
    case SlaDateColumn => SlaDate(r)
    case CompleteDate => r.updated
  }
}
