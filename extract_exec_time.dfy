/** `extract_exec_time.py`: estimate a submission's Docker run time from its TOIL log,
    and locate the log archive of a submission. */
module ExtractExecTime {
  import opened Wrappers
  import opened Text
  import opened LogPattern
  import opened PyDateTime

  const StartMarker: string := "Issued job"
  const EndMarker: string := "Job ended"
  const NotFound: string := "run_docker step not found"

  /** What `calc_exec_time` gives back: the elapsed time (here in whole microseconds,
      the source returns the same value in float seconds), the sentinel string, or
      the ValueError `datetime.fromisoformat` raises on a captured stamp. */
  datatype ExecTime = Elapsed(micros: int) | Returned(text: string) | RaisesValueError(stamp: string)

  /** `calc_exec_time` on the text of the log: the start search, the start parse, the end
      search and the end parse, in that order; a missing marker (AttributeError on
      `None.group`) gives the sentinel, a bad stamp escapes as ValueError. */
  function CalcExecTime(log: string): (r: ExecTime)
    ensures r.Returned? ==> r.text == NotFound
    ensures r.Returned? <==>
      Search(log, StartMarker).None? ||
      (FromIsoFormat(Search(log, StartMarker).value.capture).Some? && Search(log, EndMarker).None?)
    ensures r.Elapsed? <==>
      Search(log, StartMarker).Some? && FromIsoFormat(Search(log, StartMarker).value.capture).Some? &&
      Search(log, EndMarker).Some? && FromIsoFormat(Search(log, EndMarker).value.capture).Some?
  {
    match Search(log, StartMarker)
    case None => Returned(NotFound)
    case Some(first) =>
      match FromIsoFormat(first.capture)
      case None => RaisesValueError(first.capture)
      case Some(start) =>
        match Search(log, EndMarker)
        case None => Returned(NotFound)
        case Some(last) =>
          match FromIsoFormat(last.capture)
          case None => RaisesValueError(last.capture)
          case Some(end) => Elapsed(Subtract(end, start))
  }

  /** No start marker anywhere in the log gives the sentinel. */
  lemma NoStartMarkerGivesSentinel(log: string)
    requires forall q :: 0 <= q <= |log| ==> !MatchesAt(log[q..], StartMarker)
    ensures CalcExecTime(log) == Returned(NotFound)
  {
    SearchIsLeftmostMatch(log, StartMarker);
  }

  /** The first position where the start pattern matches is the start hit, with its stamp. */
  lemma StartHitAt(log: string, q: nat, a: int, b: int, j: int, k: int)
    requires q <= |log| && Shape(log[q..], StartMarker, a, b, j, k)
    requires forall p :: 0 <= p < q ==> !MatchesAt(log[p..], StartMarker)
    ensures Search(log, StartMarker) == Some(Hit(q, log[q..][8..a + 7]))
  {
    var s := log[q..];
    MatchAtComplete(s, StartMarker, a, b, j, k);
    ScanFromFirst(log, t => MatchAt(t, StartMarker), 0);
    var h := Search(log, StartMarker).value;
    MatchAtSound(log[h.pos..], StartMarker);
  }

  /** A start marker whose stamp is a valid date-time, and no end marker anywhere,
      gives the sentinel too. */
  lemma NoEndMarkerGivesSentinel(log: string, q: nat, a: int, b: int, j: int, k: int)
    requires q <= |log| && Shape(log[q..], StartMarker, a, b, j, k)
    requires forall p :: 0 <= p < q ==> !MatchesAt(log[p..], StartMarker)
    requires FromIsoFormat(log[q..][8..a + 7]).Some?
    requires forall p :: 0 <= p <= |log| ==> !MatchesAt(log[p..], EndMarker)
    ensures CalcExecTime(log) == Returned(NotFound)
  {
    StartHitAt(log, q, a, b, j, k);
    SearchIsLeftmostMatch(log, EndMarker);
  }

  /** With both markers found and both stamps valid, the result is the end stamp minus the
      start stamp. The end marker is searched in the whole log, independently of where the
      start marker was, so the result is negative exactly when the end stamp is earlier. */
  lemma ElapsedIsEndMinusStart(log: string, start: DateTime, end: DateTime)
    requires Search(log, StartMarker).Some? && FromIsoFormat(Search(log, StartMarker).value.capture) == Some(start)
    requires Search(log, EndMarker).Some? && FromIsoFormat(Search(log, EndMarker).value.capture) == Some(end)
    ensures CalcExecTime(log) == Elapsed(Subtract(end, start))
    ensures CalcExecTime(log).micros >= 0 <==> !Before(end, start)
    ensures CalcExecTime(log).micros == 0 <==> end == start
  {
    SubtractSign(end, start);
  }

  /** An invalid stamp (month 13, say) raises instead of giving the sentinel: the start
      stamp is parsed before the end marker is looked for. */
  lemma InvalidStartStampRaises(log: string)
    requires Search(log, StartMarker).Some? && FromIsoFormat(Search(log, StartMarker).value.capture).None?
    ensures CalcExecTime(log) == RaisesValueError(Search(log, StartMarker).value.capture)
  {
  }

  /** An invalid end stamp raises too, once the start stamp has parsed: the end parse is
      outside the `try` as well. */
  lemma InvalidEndStampRaises(log: string)
    requires Search(log, StartMarker).Some? && FromIsoFormat(Search(log, StartMarker).value.capture).Some?
    requires Search(log, EndMarker).Some? && FromIsoFormat(Search(log, EndMarker).value.capture).None?
    ensures CalcExecTime(log) == RaisesValueError(Search(log, EndMarker).value.capture)
  {
  }

  /** One string annotation of a submission status. */
  datatype Annotation = Annotation(key: string, value: string)

  const FolderKeySuffix: string := "SubmissionFolder"

  predicate IsFolderKey(a: Annotation) { EndsWith(a.key, FolderKeySuffix) }

  /** `i` is the first annotation with a `SubmissionFolder` key. */
  predicate IsFirstFolder(annotations: seq<Annotation>, i: int)
  {
    0 <= i < |annotations| && IsFolderKey(annotations[i])
    && forall p :: 0 <= p < i ==> !IsFolderKey(annotations[p])
  }

  /** The comprehension in `find_log_file`: values of the annotations whose key ends
      in `SubmissionFolder`, in order. */
  function FolderIds(annotations: seq<Annotation>): (ids: seq<string>)
    ensures |ids| <= |annotations|
  {
    if annotations == [] then []
    else
      var rest := FolderIds(annotations[1..]);
      if IsFolderKey(annotations[0]) then [annotations[0].value] + rest else rest
  }

  /** The folder chosen is the value of the first annotation with a `SubmissionFolder` key;
      there is none exactly when no key has that suffix. */
  lemma {:induction false} FolderIdsFirst(annotations: seq<Annotation>)
    ensures FolderIds(annotations) == [] <==> forall i :: 0 <= i < |annotations| ==> !IsFolderKey(annotations[i])
    ensures FolderIds(annotations) != [] ==>
      exists i :: IsFirstFolder(annotations, i) && FolderIds(annotations)[0] == annotations[i].value
  {
    if annotations != [] && !IsFolderKey(annotations[0]) {
      var tail := annotations[1..];
      FolderIdsFirst(tail);
      if FolderIds(tail) != [] {
        var i :| IsFirstFolder(tail, i) && FolderIds(tail)[0] == tail[i].value;
        assert forall p :: 1 <= p < i + 1 ==> annotations[p] == tail[p - 1];
        assert IsFirstFolder(annotations, i + 1);
      }
      assert forall i :: 1 <= i < |annotations| ==> annotations[i] == tail[i - 1];
    }
  }

  /** Where the log archive is looked up: the folder, the base filename, and the archive
      name passed to `findEntityId`. */
  datatype LogLocation = LogLocation(folderId: string, filename: string, archive: string)

  /** The IndexError `[0]` raises on an empty list. */
  datatype LookupError = IndexError

  /** `find_log_file` up to the remote lookup of the archive. */
  function FindLogFile(submissionId: string, annotations: seq<Annotation>): (r: Result<LogLocation, LookupError>)
    ensures r.Ok? ==> r.value.filename == submissionId + "_logs"
    ensures r.Ok? ==> r.value.archive == r.value.filename + ".zip"
    ensures r.Ok? ==> exists i :: IsFirstFolder(annotations, i) && r.value.folderId == annotations[i].value
    ensures r.Err? <==> forall i :: 0 <= i < |annotations| ==> !IsFolderKey(annotations[i])
  {
    FolderIdsFirst(annotations);
    var ids := FolderIds(annotations);
    if ids == [] then Err(IndexError)
    else
      var filename := submissionId + "_logs";
      Ok(LogLocation(ids[0], filename, filename + ".zip"))
  }
}
