/** `maybeReportSorting` (src/utils/maybeReportSorting.ts, duplicated in
    src/utils/utils-clone.ts): report and fix a range only when its text
    differs from the sorted rendering. */
module Reporting {
  import opened Wrappers

  /** One `context.report`: the location spans `[start, end)` and the fix
      replaces that range with `replacement`. */
  datatype Report = Report(start: nat, end: nat, replacement: string)

  function Min(a: nat, b: nat): nat { if a <= b then a else b }

  /** `text.slice(start, end)` for non-negative offsets: both are clamped
      to the text's length, and a reversed range gives the empty string. */
  function Slice(text: string, start: nat, end: nat): (r: string)
    ensures start <= end <= |text| ==> r == text[start..end]
    ensures end <= start ==> r == []
    ensures |r| <= |text|
  {
    var s := Min(start, |text|);
    var e := Min(end, |text|);
    if s >= e then [] else text[s..e]
  }

  /** `maybeReportSorting(context, sorted, start, end)`. */
  function MaybeReportSorting(text: string, sorted: string, start: nat, end: nat): (r: Option<Report>)
    ensures r.None? <==> Slice(text, start, end) == sorted
    ensures r.Some? ==> r.value == Report(start, end, sorted)
  {
    if Slice(text, start, end) != sorted then Some(Report(start, end, sorted)) else None
  }

  /** `fixer.replaceTextRange([start, end], replacement)` applied to the text. */
  function ApplyFix(text: string, r: Report): (fixed: string)
    requires r.start <= r.end <= |text|
    ensures |fixed| == |text| - (r.end - r.start) + |r.replacement|
    ensures fixed[..r.start] == text[..r.start]
    ensures fixed[r.start..r.start + |r.replacement|] == r.replacement
    ensures fixed[r.start + |r.replacement|..] == text[r.end..]
  {
    text[..r.start] + r.replacement + text[r.end..]
  }

  /** Applying the fix makes the check quiet: the fixed text holds the
      sorted rendering where the range was, so checking the new range
      reports nothing. */
  lemma FixSettles(text: string, sorted: string, start: nat, end: nat)
    requires start <= end <= |text|
    requires MaybeReportSorting(text, sorted, start, end).Some?
    ensures var fixed := ApplyFix(text, MaybeReportSorting(text, sorted, start, end).value);
      MaybeReportSorting(fixed, sorted, start, start + |sorted|).None?
  {
    var fixed := ApplyFix(text, Report(start, end, sorted));
    assert Slice(fixed, start, start + |sorted|) == fixed[start..start + |sorted|];
  }

  /** A report is made exactly when the fix would change the text. */
  lemma ReportIffFixChanges(text: string, sorted: string, start: nat, end: nat)
    requires start <= end <= |text|
    ensures MaybeReportSorting(text, sorted, start, end).Some? <==>
      ApplyFix(text, Report(start, end, sorted)) != text
  {
    var fixed := ApplyFix(text, Report(start, end, sorted));
    if Slice(text, start, end) == sorted {
      assert text == text[..start] + text[start..end] + text[end..];
    }
  }
}
