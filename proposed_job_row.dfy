/**
 * One row of the proposed-jobs table (web/lib/components/jobs/ProposedJobRow.tsx): its
 * colour class, the update payloads its icons send, the icons themselves, the sorted
 * list of available days and the count of days still available.
 */
module ProposedJobRow {
  import opened Wrappers
  import opened Seqs
  import opened Sorting
  import opened Helpers
  import opened JobsTable

  // ---------------------------------------------------------------- colour

  /** `rowColorClass(job, workerId)` */
  function RowColorClass(job: Job, workerId: string): string {
    if job.hidden then "smj-hidden-job-row"
    else if job.completed then "smj-completed-job-row"
    else if IsPinnedBy(job, workerId) then "smj-pinned-job-row"
    else ""
  }

  /** The colour of each bucket of the table. */
  function BucketColor(b: Bucket): (cls: string)
    ensures cls == "" <==> b == Regular
  {
    match b
    case Hidden => "smj-hidden-job-row"
    case Completed => "smj-completed-job-row"
    case Pinned => "smj-pinned-job-row"
    case Regular => ""
  }

  /**
   * A row is coloured after the bucket the table puts its job in: the row and the table
   * apply the same precedence, so each colour marks exactly one bucket.
   */
  lemma RowColorMatchesBucket(job: Job, workerId: string)
    ensures RowColorClass(job, workerId) == BucketColor(BucketOf(job, workerId))
    ensures forall b :: RowColorClass(job, workerId) == BucketColor(b) <==> b == BucketOf(job, workerId)
  {
  }

  // ---------------------------------------------------------------- updates

  datatype PinChange = PinChange(workerId: string, pinned: bool)

  /** The body sent by `triggerUpdate`: only the fields that are present are changed. */
  datatype JobUpdate = JobUpdate(pinnedByChange: Option<PinChange>, completed: Option<bool>, hidden: Option<bool>)

  /** `setJobPinned(pinned)` */
  function SetJobPinned(workerId: string, pinned: bool): (u: JobUpdate)
    ensures u.completed.None? && u.hidden.None?
    ensures u.pinnedByChange == Some(PinChange(workerId, pinned))
  {
    JobUpdate(Some(PinChange(workerId, pinned)), None, None)
  }

  /** `setJobCompleted(completed)` */
  function SetJobCompleted(completed: bool): (u: JobUpdate)
    ensures u.pinnedByChange.None? && u.hidden.None?
    ensures u.completed == Some(completed)
  {
    JobUpdate(None, Some(completed), None)
  }

  /** `setJobHidden(hidden)` */
  function SetJobHidden(hidden: bool): (u: JobUpdate)
    ensures u.pinnedByChange.None? && u.completed.None?
    ensures u.hidden == Some(hidden)
  {
    JobUpdate(None, None, Some(hidden))
  }

  /** The click on the completed icon: `setCompleted(!job.completed)`. */
  function OnCompletedClick(job: Job): JobUpdate {
    SetJobCompleted(!job.completed)
  }

  /** The click on the hide icon: `setHidden(!job.hidden)`. */
  function OnHideClick(job: Job): JobUpdate {
    SetJobHidden(!job.hidden)
  }

  /**
   * What a payload asks of the stored job: each present field is set, a pin change adds
   * or removes one worker's pin, and every absent field keeps its value.
   */
  function ApplyUpdate(job: Job, u: JobUpdate): Job {
    var pinnedBy :=
      match u.pinnedByChange
      case None => job.pinnedBy
      case Some(PinChange(w, true)) => if w in job.pinnedBy then job.pinnedBy else job.pinnedBy + [w]
      case Some(PinChange(w, false)) => Filter(job.pinnedBy, (v: string) => v != w);
    job.(completed := u.completed.GetOr(job.completed),
         hidden := u.hidden.GetOr(job.hidden),
         pinnedBy := pinnedBy)
  }

  /**
   * Clicking the completed icon flips `completed` and nothing else; clicking it again on
   * the reloaded row gives back the original job.
   */
  lemma CompletedClickToggles(job: Job)
    ensures ApplyUpdate(job, OnCompletedClick(job)) == job.(completed := !job.completed)
    ensures var j := ApplyUpdate(job, OnCompletedClick(job)); ApplyUpdate(j, OnCompletedClick(j)) == job
  {
  }

  /**
   * Clicking the hide icon flips `hidden` and nothing else, twice gives back the job, and
   * a job that was not hidden moves to the hidden bucket for every worker.
   */
  lemma HideClickToggles(job: Job, workerId: string)
    ensures ApplyUpdate(job, OnHideClick(job)) == job.(hidden := !job.hidden)
    ensures var j := ApplyUpdate(job, OnHideClick(job)); ApplyUpdate(j, OnHideClick(j)) == job
    ensures !job.hidden ==> BucketOf(ApplyUpdate(job, OnHideClick(job)), workerId) == Hidden
  {
  }

  /** Pinning sets this worker's pin as asked and leaves every other worker's pin alone. */
  lemma PinChangesOnlyThisWorker(job: Job, workerId: string, pinned: bool, other: string)
    requires other != workerId
    ensures IsPinnedBy(ApplyUpdate(job, SetJobPinned(workerId, pinned)), workerId) == pinned
    ensures IsPinnedBy(ApplyUpdate(job, SetJobPinned(workerId, pinned)), other) == IsPinnedBy(job, other)
    ensures var j := ApplyUpdate(job, SetJobPinned(workerId, pinned));
      j.completed == job.completed && j.hidden == job.hidden
  {
    if !pinned {
      FilterMembership(job.pinnedBy, (v: string) => v != workerId, workerId);
      FilterMembership(job.pinnedBy, (v: string) => v != workerId, other);
    }
  }

  // ---------------------------------------------------------------- icons

  datatype Icon = Icon(icon: string, color: string, title: string)

  /** `markJobAsCompletedIcon`: the icon offers the opposite of the current state. */
  function CompletedIcon(completed: bool): Icon {
    if completed then Icon("fa-times", "smj-action-completed", "Ozna\U{010D}it jako nedokon\U{010D}en\U{00FD}")
    else Icon("fa-check", "smj-action-complete", "Ozna\U{010D}it jako dokon\U{010D}en\U{00FD}")
  }

  /** `hideJobIcon` */
  function HideIcon(hidden: bool): Icon {
    if hidden then Icon("fa-eye", "smj-action-hidden", "Zobrazit")
    else Icon("fa-eye-slash", "smj-action-hide", "Skr\U{00FD}t")
  }

  /** A click always changes the icon shown once the row is reloaded, in every part. */
  lemma IconsFollowClicks(job: Job)
    ensures var j := ApplyUpdate(job, OnCompletedClick(job));
      CompletedIcon(j.completed).icon != CompletedIcon(job.completed).icon
      && CompletedIcon(j.completed).color != CompletedIcon(job.completed).color
      && CompletedIcon(j.completed).title != CompletedIcon(job.completed).title
      && HideIcon(j.hidden) == HideIcon(job.hidden)
    ensures var j := ApplyUpdate(job, OnHideClick(job));
      HideIcon(j.hidden).icon != HideIcon(job.hidden).icon
      && HideIcon(j.hidden).color != HideIcon(job.hidden).color
      && HideIcon(j.hidden).title != HideIcon(job.hidden).title
      && CompletedIcon(j.completed) == CompletedIcon(job.completed)
  {
    CompletedClickToggles(job);
    HideClickToggles(job, "");
    assert "fa-times"[3] != "fa-check"[3];
    assert "smj-action-completed"[18] != "smj-action-complete"[18] || |"smj-action-completed"| != |"smj-action-complete"|;
  }

  // ---------------------------------------------------------------- dates

  /** The comparator `a.getTime() - b.getTime()`: earlier first. */
  function Earlier(): (int, int) -> bool {
    (a: int, b: int) => a < b
  }

  /** The sorted copy of `job.availability` made by `availableDays`. */
  function AvailableDays(availability: seq<int>): (days: seq<int>)
    ensures multiset(days) == multiset(availability)
    ensures forall i, j :: 0 <= i < j < |days| ==> days[i] <= days[j]
  {
    SortSorted(availability, Earlier());
    Sort(availability, Earlier())
  }

  /** `parts.join(separator)` */
  function Join(parts: seq<string>, separator: string): string {
    if parts == [] then ""
    else if |parts| == 1 then parts[0]
    else parts[0] + separator + Join(parts[1..], separator)
  }

  /** `s.split(c)` for a one-character separator: the pieces between the occurrences of `c`. */
  function SplitOn(s: string, c: char): (pieces: seq<string>)
    ensures |pieces| >= 1
    ensures forall i :: 0 <= i < |pieces| ==> c !in pieces[i]
    decreases |s|
  {
    if s == [] then [""]
    else
      var rest := SplitOn(s[1..], c);
      if s[0] == c then [""] + rest else [[s[0]] + rest[0]] + rest[1..]
  }

  /** Text without the separator extends the first piece. */
  lemma {:induction false} SplitNoSeparator(a: string, b: string, c: char)
    requires c !in a
    ensures SplitOn(a + b, c) == [a + SplitOn(b, c)[0]] + SplitOn(b, c)[1..]
  {
    if a == [] {
      var sb := SplitOn(b, c);
      assert a + b == b && a + sb[0] == sb[0];
      assert [sb[0]] + sb[1..] == sb;
    } else {
      SplitNoSeparator(a[1..], b, c);
      assert (a + b)[0] == a[0] && (a + b)[1..] == a[1..] + b;
      var r, sb := SplitOn(a[1..] + b, c), SplitOn(b, c);
      assert a[0] != c;
      assert SplitOn(a + b, c) == [[a[0]] + r[0]] + r[1..];
      assert r[0] == a[1..] + sb[0] && r[1..] == sb[1..];
      assert [a[0]] + (a[1..] + sb[0]) == a + sb[0];
    }
  }

  /** A separator ends the first piece. */
  lemma SplitAtSeparator(a: string, b: string, c: char)
    requires c !in a
    ensures SplitOn(a + [c] + b, c) == [a] + SplitOn(b, c)
  {
    SplitNoSeparator(a, [c] + b, c);
    assert a + [c] + b == a + ([c] + b);
    assert ([c] + b)[0] == c && ([c] + b)[1..] == b;
    var sc := SplitOn([c] + b, c);
    assert sc == [""] + SplitOn(b, c);
    assert a + sc[0] == a;
  }

  /**
   * Splitting a joined text at the separator's first character gives the parts back, the
   * later ones behind the rest of the separator, when no part and no rest of the separator
   * contains that character.
   */
  lemma {:induction false} JoinSplit(parts: seq<string>, separator: string)
    requires parts != [] && separator != []
    requires forall i :: 0 <= i < |parts| ==> separator[0] !in parts[i]
    requires separator[0] !in separator[1..]
    ensures SplitOn(Join(parts, separator), separator[0])
         == [parts[0]] + seq(|parts| - 1, i requires 0 <= i < |parts| - 1 => separator[1..] + parts[i + 1])
    decreases |parts|
  {
    var c, t := separator[0], separator[1..];
    if |parts| == 1 {
      SplitNoSeparator(parts[0], [], c);
      assert parts[0] + [] == parts[0];
    } else {
      var rest := Join(parts[1..], separator);
      JoinSplit(parts[1..], separator);
      assert separator == [c] + t;
      assert Join(parts, separator) == parts[0] + [c] + (t + rest);
      SplitAtSeparator(parts[0], t + rest, c);
      SplitNoSeparator(t, rest, c);
    }
  }

  /** Each day's label: `capitalizeFirstLetter(formatDateShort(day))`. */
  function DayLabels(days: seq<int>, formatDateShort: int -> string, upper: char -> string): (labels: seq<string>)
    ensures |labels| == |days|
    ensures forall i :: 0 <= i < |days| ==> labels[i] == CapitalizeFirstLetter(formatDateShort(days[i]), upper)
  {
    seq(|days|, i requires 0 <= i < |days| => CapitalizeFirstLetter(formatDateShort(days[i]), upper))
  }

  /** The text of the `Dostupné` cell; `formatDateShort` is a parameter. */
  function AvailableDaysText(availability: seq<int>, formatDateShort: int -> string, upper: char -> string): string {
    Join(DayLabels(AvailableDays(availability), formatDateShort, upper), ", ")
  }

  /**
   * No day shows as an empty text; otherwise the text lists one label per available day,
   * earliest first, separated by ", ", when no label holds a comma.
   */
  lemma AvailableDaysTextSpec(availability: seq<int>, formatDateShort: int -> string, upper: char -> string)
    requires forall d :: ',' !in CapitalizeFirstLetter(formatDateShort(d), upper)
    ensures availability == [] ==> AvailableDaysText(availability, formatDateShort, upper) == ""
    ensures var labels := DayLabels(AvailableDays(availability), formatDateShort, upper);
      availability != [] ==>
        SplitOn(AvailableDaysText(availability, formatDateShort, upper), ',')
          == [labels[0]] + seq(|labels| - 1, i requires 0 <= i < |labels| - 1 => " " + labels[i + 1])
  {
    var labels := DayLabels(AvailableDays(availability), formatDateShort, upper);
    if availability != [] {
      assert ", "[0] == ',' && ", "[1..] == " ";
      JoinSplit(labels, ", ");
    }
  }

  /** Six hours in milliseconds: a day still counts as available until 6:00. */
  const SixHoursMs: int := 6 * 60 * 60 * 1000

  /** The `Dostupné dny` cell: the available days not before six hours ago. */
  function DaysLeftShown(availability: seq<int>, now: int): nat {
    |DatesAfterDate(availability, now - SixHoursMs)|
  }

  /**
   * The count never exceeds the number of available days, and it never grows as time
   * passes.
   */
  lemma {:induction false} DaysLeftShownShrinks(availability: seq<int>, now: int, later: int)
    requires now <= later
    ensures DaysLeftShown(availability, later) <= DaysLeftShown(availability, now) <= |availability|
  {
    if availability != [] {
      DaysLeftShownShrinks(availability[1..], now, later);
    }
  }

  /** A day counts exactly when it starts no earlier than six hours before now. */
  lemma DaysLeftShownCounts(availability: seq<int>, now: int, d: int)
    ensures multiset(DatesAfterDate(availability, now - SixHoursMs))[d]
      == if now <= d + SixHoursMs then multiset(availability)[d] else 0
  {
    FilterMultiset(availability, x => x >= now - SixHoursMs, d);
  }
}
