/** The application component: the selected files, the per-file results,
    the loading flag and the error banner; selecting and clearing files;
    a run that initialises one pending row per file and then settles the
    files one after another; and the progress percentage derived from the rows. */
module App {
  import opened JsRuntime
  import opened Types
  import GeminiService

  const Placeholder := "..."
  const ErrorPlaceholder := "錯誤"
  const UnknownError := "未知錯誤"

  /* ---------- file identity ---------- */

  /** The derived key `${file.name}-${file.lastModified}`. */
  function FileId(f: ImageFile): string {
    f.name + "-" + IntToDecimal(f.lastModified)
  }

  /** How many characters follow the last `c` in `s` (all of them when there is none). */
  function TrailingLength(s: string, c: char): nat {
    if |s| == 0 || s[|s| - 1] == c then 0 else 1 + TrailingLength(s[..|s| - 1], c)
  }

  lemma {:induction false} TrailingLengthAfterSeparator(x: string, c: char, a: string)
    requires c !in a
    ensures TrailingLength(x + [c] + a, c) == |a|
  {
    if |a| > 0 {
      var s := x + [c] + a;
      assert s[..|s| - 1] == x + [c] + a[..|a| - 1];
      TrailingLengthAfterSeparator(x, c, a[..|a| - 1]);
    }
  }

  /** Two strings `x c a` and `y c b` whose tails hold no `c` are cut at the same place. */
  lemma SplitAtLastSeparator(x: string, a: string, y: string, b: string, c: char)
    requires c !in a && c !in b
    requires x + [c] + a == y + [c] + b
    ensures x == y && a == b
  {
    var s := x + [c] + a;
    TrailingLengthAfterSeparator(x, c, a);
    TrailingLengthAfterSeparator(y, c, b);
    assert x == s[..|x|] && y == s[..|y|];
    assert a == s[|x| + 1..] && b == s[|y| + 1..];
  }

  /** For non-negative timestamps the key determines name and timestamp:
      two files share a key only when both their names and their
      timestamps agree. */
  lemma FileIdInjective(f: ImageFile, g: ImageFile)
    requires f.lastModified >= 0 && g.lastModified >= 0
    requires FileId(f) == FileId(g)
    ensures f.name == g.name && f.lastModified == g.lastModified
  {
    var a, b := NatToDecimal(f.lastModified), NatToDecimal(g.lastModified);
    NatToDecimalDigits(f.lastModified);
    NatToDecimalDigits(g.lastModified);
    SplitAtLastSeparator(f.name, a, g.name, b, '-');
    NatToDecimalInjective(f.lastModified, g.lastModified);
  }

  /** A negative timestamp lets two different files share a key. */
  lemma FileIdCollision()
    ensures FileId(ImageFile("x-", 5, "image/png")) == FileId(ImageFile("x", -5, "image/png"))
  {
  }

  /* ---------- rows ---------- */

  /** The pending row created for a file when a run starts. */
  function InitialRow(f: ImageFile): GiftCardData {
    GiftCardData(FileId(f), f.name, Placeholder, Placeholder, Pending, None)
  }

  /** `selectedFiles.map(...)`: one row per file, in the same order. */
  function InitialData(files: seq<ImageFile>): (rows: seq<GiftCardData>)
    ensures |rows| == |files|
    ensures forall i :: 0 <= i < |files| ==>
              rows[i].id == FileId(files[i]) && rows[i].fileName == files[i].name &&
              rows[i].serialNumber == Placeholder && rows[i].password == Placeholder &&
              rows[i].status == Pending && rows[i].errorMessage == None
  {
    seq(|files|, i requires 0 <= i < |files| => InitialRow(files[i]))
  }

  /** `e instanceof Error ? e.message : '未知錯誤'` */
  function MessageOf(thrown: Thrown): (message: string)
    ensures thrown.ErrorObject? ==> message == thrown.message
    ensures thrown.OtherValue? ==> message == UnknownError
  {
    match thrown
    case ErrorObject(message) => message
    case OtherValue => UnknownError
  }

  /** The row after its file settled: on success the extracted fields are
      merged and the status set (an earlier error message is kept, as the
      spread keeps it); on failure both fields get the error placeholder
      and the message is recorded. */
  function Resolve(item: GiftCardData, outcome: Settled<Fields>): (r: GiftCardData)
    ensures r.id == item.id && r.fileName == item.fileName && r.status != Pending
    ensures outcome.Resolved? ==>
              r.status == Success && r.serialNumber == outcome.value.serialNumber &&
              r.password == outcome.value.password && r.errorMessage == item.errorMessage
    ensures outcome.Rejected? ==>
              r.status == Error && r.serialNumber == ErrorPlaceholder &&
              r.password == ErrorPlaceholder && r.errorMessage == Some(MessageOf(outcome.reason))
  {
    match outcome
    case Resolved(fields) =>
      item.(serialNumber := fields.serialNumber, password := fields.password, status := Success)
    case Rejected(reason) =>
      item.(status := Error, serialNumber := ErrorPlaceholder, password := ErrorPlaceholder,
            errorMessage := Some(MessageOf(reason)))
  }

  /** `prev.map(item => item.id === id ? … : item)`: every row carrying the
      key takes the outcome, every other row stays as it was, and no row is
      added or removed. */
  function ApplyOutcome(rows: seq<GiftCardData>, id: string, outcome: Settled<Fields>): (r: seq<GiftCardData>)
    ensures |r| == |rows|
    ensures forall i :: 0 <= i < |rows| && rows[i].id != id ==> r[i] == rows[i]
    ensures forall i :: 0 <= i < |rows| && rows[i].id == id ==> r[i] == Resolve(rows[i], outcome)
  {
    seq(|rows|, i requires 0 <= i < |rows| => if rows[i].id == id then Resolve(rows[i], outcome) else rows[i])
  }

  /** A failure inside the extraction client's `try` reaches the row as one
      of its two fixed messages, never as the upstream text. */
  lemma FailedRowShowsTranslatedMessage(item: GiftCardData, call: GeminiService.CallOutcome)
    requires call.Threw?
    ensures var r := Resolve(item, GeminiService.ExtractGiftCardInfo(call));
            r.status == Error &&
            (r.errorMessage == Some(GeminiService.InvalidKeyMessage) ||
             r.errorMessage == Some(GeminiService.GenericFailureMessage))
  {
  }

  /** A failure before the client's `try` reaches the row untranslated: an
      `Error`'s own message, or `'未知錯誤'` for any other thrown value. */
  lemma SetupFailureShowsOwnMessage(item: GiftCardData, thrown: Thrown)
    ensures var r := Resolve(item, GeminiService.ExtractGiftCardInfo(GeminiService.SetupThrew(thrown)));
            r.status == Error &&
            r.errorMessage == Some(if thrown.ErrorObject? then thrown.message else UnknownError)
  {
  }

  /* ---------- component state ---------- */

  /** The component's four pieces of state. */
  datatype Screen = Screen(
    selectedFiles: seq<ImageFile>,
    results: seq<GiftCardData>,
    isLoading: bool,
    error: Option<string>)

  /** `handleFilesSelected` */
  function Select(s: Screen, files: seq<ImageFile>): (r: Screen)
    ensures |r.selectedFiles| == |s.selectedFiles| + |files|
    ensures r.selectedFiles[..|s.selectedFiles|] == s.selectedFiles
    ensures r.selectedFiles[|s.selectedFiles|..] == files
    ensures r.error == None && r.results == s.results && r.isLoading == s.isLoading
  {
    s.(selectedFiles := s.selectedFiles + files, error := None)
  }

  /** `clearFiles` */
  function Clear(s: Screen): (r: Screen)
    ensures r.selectedFiles == [] && r.results == [] && r.error == None
    ensures r.isLoading == s.isLoading
  {
    s.(selectedFiles := [], results := [], error := None)
  }

  /** The start of a non-empty run: loading, no banner, one pending row per file. */
  function Start(s: Screen): (r: Screen)
    ensures r.isLoading && r.error == None && r.selectedFiles == s.selectedFiles
    ensures |r.results| == |s.selectedFiles|
    ensures forall i :: 0 <= i < |r.results| ==>
              r.results[i].status == Pending && r.results[i].id == FileId(s.selectedFiles[i])
  {
    s.(isLoading := true, error := None, results := InitialData(s.selectedFiles))
  }

  /** One file settled: its rows are updated, and a failure becomes the banner. */
  function Settle(s: Screen, file: ImageFile, outcome: Settled<Fields>): (r: Screen)
    ensures r.selectedFiles == s.selectedFiles && r.isLoading == s.isLoading
    ensures |r.results| == |s.results|
    ensures forall i :: 0 <= i < |s.results| && s.results[i].id != FileId(file) ==>
              r.results[i] == s.results[i]
    ensures forall i :: 0 <= i < |s.results| && s.results[i].id == FileId(file) ==>
              r.results[i].id == s.results[i].id && r.results[i].status != Pending
    ensures outcome.Rejected? ==> r.error == Some(MessageOf(outcome.reason))
    ensures outcome.Resolved? ==> r.error == s.error
  {
    s.(results := ApplyOutcome(s.results, FileId(file), outcome),
       error := if outcome.Rejected? then Some(MessageOf(outcome.reason)) else s.error)
  }

  /** What the user can still do while a run awaits the service. */
  datatype UserAction = SelectFiles(files: seq<ImageFile>) | ClearAll

  function Perform(s: Screen, action: UserAction): Screen {
    match action
    case SelectFiles(files) => Select(s, files)
    case ClearAll => Clear(s)
  }

  function PerformAll(s: Screen, actions: seq<UserAction>): Screen {
    if |actions| == 0 then s
    else Perform(PerformAll(s, actions[..|actions| - 1]), actions[|actions| - 1])
  }

  /** The loop over a run's files: while the call for file `i` is pending the
      user performs `interleaved[i]`, then `outcomes[i]` settles that file. */
  function Run(s: Screen, files: seq<ImageFile>, outcomes: seq<Settled<Fields>>,
               interleaved: seq<seq<UserAction>>): Screen
    requires |outcomes| == |files| && |interleaved| == |files|
  {
    if |files| == 0 then s
    else
      var k := |files| - 1;
      var before := Run(s, files[..k], outcomes[..k], interleaved[..k]);
      Settle(PerformAll(before, interleaved[k]), files[k], outcomes[k])
  }

  /** `processImages`: nothing happens for an empty selection; otherwise the
      run walks a snapshot of the selection and ends with loading off. */
  function Processed(s: Screen, outcomes: seq<Settled<Fields>>, interleaved: seq<seq<UserAction>>): (r: Screen)
    requires |outcomes| == |s.selectedFiles| && |interleaved| == |s.selectedFiles|
    ensures |s.selectedFiles| == 0 ==> r == s
    ensures |s.selectedFiles| > 0 ==> !r.isLoading
  {
    if |s.selectedFiles| == 0 then s
    else Run(Start(s), s.selectedFiles, outcomes, interleaved).(isLoading := false)
  }

  /** `isProcessButtonDisabled` */
  predicate IsProcessButtonDisabled(s: Screen) {
    s.isLoading || |s.selectedFiles| == 0
  }

  /** Pressing the enabled button starts a run over at least one file, and
      the button it pressed is disabled from then on until the run ends. */
  lemma StartDisablesButton(s: Screen)
    requires !IsProcessButtonDisabled(s)
    ensures |Start(s).results| > 0
    ensures IsProcessButtonDisabled(Start(s))
  {
  }

  /* ---------- one row across a run ---------- */

  /** The key each file's update matches rows against. */
  function Keys(files: seq<ImageFile>): (keys: seq<string>)
    ensures |keys| == |files|
  {
    seq(|files|, i requires 0 <= i < |files| => FileId(files[i]))
  }

  /** A row after the updates keyed by `keys` were applied in order, with no clear. */
  function RowAfter(row: GiftCardData, keys: seq<string>, outcomes: seq<Settled<Fields>>): (r: GiftCardData)
    requires |outcomes| == |keys|
    ensures r.id == row.id && r.fileName == row.fileName
  {
    if |keys| == 0 then row
    else
      var k := |keys| - 1;
      var before := RowAfter(row, keys[..k], outcomes[..k]);
      if keys[k] == row.id then Resolve(before, outcomes[k]) else before
  }

  /** A row no update of the run is keyed to is left alone. */
  lemma {:induction false} RowAfterUntouched(row: GiftCardData, keys: seq<string>, outcomes: seq<Settled<Fields>>)
    requires |outcomes| == |keys|
    requires forall i :: 0 <= i < |keys| ==> keys[i] != row.id
    ensures RowAfter(row, keys, outcomes) == row
  {
    if |keys| > 0 {
      var k := |keys| - 1;
      RowAfterUntouched(row, keys[..k], outcomes[..k]);
    }
  }

  /** The last update keyed to a row decides it: the row is that update's
      outcome applied to the row as it stood before. */
  lemma {:induction false} RowAfterLastMatch(row: GiftCardData, keys: seq<string>,
                                             outcomes: seq<Settled<Fields>>, m: nat)
    requires |outcomes| == |keys| && m < |keys|
    requires keys[m] == row.id
    requires forall i :: m < i < |keys| ==> keys[i] != row.id
    ensures RowAfter(row, keys, outcomes) == Resolve(RowAfter(row, keys[..m], outcomes[..m]), outcomes[m])
  {
    var k := |keys| - 1;
    if k > m {
      assert keys[..k][..m] == keys[..m] && outcomes[..k][..m] == outcomes[..m];
      RowAfterLastMatch(row, keys[..k], outcomes[..k], m);
    }
  }

  /** A row some update of the run is keyed to is no longer pending. */
  lemma {:induction false} RowAfterResolved(row: GiftCardData, keys: seq<string>,
                                            outcomes: seq<Settled<Fields>>, m: nat)
    requires |outcomes| == |keys| && m < |keys|
    requires keys[m] == row.id
    ensures RowAfter(row, keys, outcomes).status != Pending
  {
    var k := |keys| - 1;
    if keys[k] != row.id {
      RowAfterResolved(row, keys[..k], outcomes[..k], m);
    }
  }

  /** Rows sharing a key and starting alike receive the same updates and
      end alike in every field but their label. */
  lemma {:induction false} RowAfterSharedId(a: GiftCardData, b: GiftCardData, keys: seq<string>,
                                            outcomes: seq<Settled<Fields>>)
    requires |outcomes| == |keys|
    requires a.id == b.id && a.serialNumber == b.serialNumber && a.password == b.password
    requires a.status == b.status && a.errorMessage == b.errorMessage
    ensures var ra, rb := RowAfter(a, keys, outcomes), RowAfter(b, keys, outcomes);
            ra.serialNumber == rb.serialNumber && ra.password == rb.password &&
            ra.status == rb.status && ra.errorMessage == rb.errorMessage
  {
    if |keys| > 0 {
      var k := |keys| - 1;
      RowAfterSharedId(a, b, keys[..k], outcomes[..k]);
    }
  }

  /* ---------- the run as a whole ---------- */

  predicate NoClears(interleaved: seq<seq<UserAction>>) {
    forall i :: 0 <= i < |interleaved| ==> ClearAll !in interleaved[i]
  }

  /** User actions never touch the rows except that a clear empties them,
      and they never touch the loading flag. */
  lemma {:induction false} PerformAllEffect(s: Screen, actions: seq<UserAction>)
    ensures var r := PerformAll(s, actions);
            r.isLoading == s.isLoading &&
            r.results == (if ClearAll in actions then [] else s.results)
  {
    if |actions| > 0 {
      var k := |actions| - 1;
      PerformAllEffect(s, actions[..k]);
      assert actions == actions[..k] + [actions[k]];
    }
  }

  /** One more action performed. */
  lemma PerformAllStep(s: Screen, actions: seq<UserAction>, j: nat)
    requires j < |actions|
    ensures PerformAll(s, actions[..j + 1]) == Perform(PerformAll(s, actions[..j]), actions[j])
  {
    assert actions[..j + 1][..j] == actions[..j];
  }

  /** One more file settled. */
  lemma RunStep(s: Screen, files: seq<ImageFile>, outcomes: seq<Settled<Fields>>,
                interleaved: seq<seq<UserAction>>, i: nat)
    requires |outcomes| == |files| && |interleaved| == |files| && i < |files|
    ensures Run(s, files[..i + 1], outcomes[..i + 1], interleaved[..i + 1]) ==
              Settle(PerformAll(Run(s, files[..i], outcomes[..i], interleaved[..i]), interleaved[i]),
                     files[i], outcomes[i])
  {
    assert files[..i + 1][..i] == files[..i];
    assert outcomes[..i + 1][..i] == outcomes[..i];
    assert interleaved[..i + 1][..i] == interleaved[..i];
  }

  /** User actions during a run never touch the loading flag. */
  lemma {:induction false} RunKeepsLoading(s: Screen, files: seq<ImageFile>, outcomes: seq<Settled<Fields>>,
                                           interleaved: seq<seq<UserAction>>)
    requires |outcomes| == |files| && |interleaved| == |files|
    ensures Run(s, files, outcomes, interleaved).isLoading == s.isLoading
  {
    if |files| > 0 {
      var k := |files| - 1;
      RunKeepsLoading(s, files[..k], outcomes[..k], interleaved[..k]);
      PerformAllEffect(Run(s, files[..k], outcomes[..k], interleaved[..k]), interleaved[k]);
    }
  }

  /** A clear somewhere in a run that is not in its last step is in its earlier steps. */
  lemma ClearEarlier(interleaved: seq<seq<UserAction>>, k: nat)
    requires k + 1 == |interleaved|
    requires !NoClears(interleaved) && ClearAll !in interleaved[k]
    ensures !NoClears(interleaved[..k])
  {
    var i :| 0 <= i < |interleaved| && ClearAll in interleaved[i];
    assert interleaved[..k][i] == interleaved[i];
  }

  /** Updates only map over the current list, so once the user clears it
      during a run (or it is empty to begin with) it stays empty. */
  lemma {:induction false} RunNeverRefills(s: Screen, files: seq<ImageFile>, outcomes: seq<Settled<Fields>>,
                                           interleaved: seq<seq<UserAction>>)
    requires |outcomes| == |files| && |interleaved| == |files|
    requires !NoClears(interleaved) || s.results == []
    ensures Run(s, files, outcomes, interleaved).results == []
  {
    if |files| > 0 {
      var k := |files| - 1;
      var before := Run(s, files[..k], outcomes[..k], interleaved[..k]);
      var waiting := PerformAll(before, interleaved[k]);
      PerformAllEffect(before, interleaved[k]);
      if ClearAll !in interleaved[k] {
        if s.results != [] {
          ClearEarlier(interleaved, k);
        }
        RunNeverRefills(s, files[..k], outcomes[..k], interleaved[..k]);
      }
      assert waiting.results == [];
      assert |ApplyOutcome(waiting.results, FileId(files[k]), outcomes[k])| == 0;
    }
  }

  lemma KeysPrefix(files: seq<ImageFile>, k: nat)
    requires k <= |files|
    ensures Keys(files[..k]) == Keys(files)[..k]
  {
  }

  /** Settling one more file extends every row's history by that file's update. */
  lemma ApplyOutcomeExtends(rows: seq<GiftCardData>, start: seq<GiftCardData>, keys: seq<string>,
                            outcomes: seq<Settled<Fields>>)
    requires |outcomes| == |keys| > 0 && |rows| == |start|
    requires forall j :: 0 <= j < |start| ==>
               rows[j] == RowAfter(start[j], keys[..|keys| - 1], outcomes[..|keys| - 1])
    ensures var r := ApplyOutcome(rows, keys[|keys| - 1], outcomes[|keys| - 1]);
            |r| == |start| && forall j :: 0 <= j < |start| ==> r[j] == RowAfter(start[j], keys, outcomes)
  {
  }

  /** Without a clear the run keeps the same rows, each the result of the
      updates keyed to it. */
  lemma {:induction false} RunRows(s: Screen, files: seq<ImageFile>, outcomes: seq<Settled<Fields>>,
                                   interleaved: seq<seq<UserAction>>)
    requires |outcomes| == |files| && |interleaved| == |files|
    requires NoClears(interleaved)
    ensures var r := Run(s, files, outcomes, interleaved).results;
            |r| == |s.results| &&
            forall j :: 0 <= j < |s.results| ==> r[j] == RowAfter(s.results[j], Keys(files), outcomes)
  {
    if |files| > 0 {
      var k := |files| - 1;
      var before := Run(s, files[..k], outcomes[..k], interleaved[..k]);
      var keys := Keys(files);
      assert NoClears(interleaved[..k]);
      RunRows(s, files[..k], outcomes[..k], interleaved[..k]);
      PerformAllEffect(before, interleaved[k]);
      KeysPrefix(files, k);
      ApplyOutcomeExtends(before.results, s.results, keys, outcomes);
    }
  }

  /** Throughout a run the process button stays disabled. */
  lemma DisabledThroughoutRun(s: Screen, outcomes: seq<Settled<Fields>>,
                              interleaved: seq<seq<UserAction>>, k: nat)
    requires |outcomes| == |s.selectedFiles| && |interleaved| == |s.selectedFiles|
    requires k <= |s.selectedFiles|
    ensures IsProcessButtonDisabled(Run(Start(s), s.selectedFiles[..k], outcomes[..k], interleaved[..k]))
  {
    RunKeepsLoading(Start(s), s.selectedFiles[..k], outcomes[..k], interleaved[..k]);
  }

  /** The pending rows of a run carry the run's keys. */
  lemma InitialKeys(files: seq<ImageFile>)
    ensures forall j :: 0 <= j < |files| ==> InitialData(files)[j].id == Keys(files)[j]
  {
  }

  /** After a run no row is left pending, whatever the outcomes and
      whatever the user did meanwhile. */
  lemma NoRowLeftPending(s: Screen, outcomes: seq<Settled<Fields>>, interleaved: seq<seq<UserAction>>)
    requires |outcomes| == |s.selectedFiles| && |interleaved| == |s.selectedFiles|
    requires |s.selectedFiles| > 0
    ensures var r := Processed(s, outcomes, interleaved);
            forall j :: 0 <= j < |r.results| ==> r.results[j].status != Pending
  {
    var files := s.selectedFiles;
    var rows := InitialData(files);
    var keys := Keys(files);
    var r := Processed(s, outcomes, interleaved);
    if NoClears(interleaved) {
      RunRows(Start(s), files, outcomes, interleaved);
      InitialKeys(files);
      forall j | 0 <= j < |r.results| ensures r.results[j].status != Pending {
        RowAfterResolved(rows[j], keys, outcomes, j);
      }
    } else {
      RunNeverRefills(Start(s), files, outcomes, interleaved);
    }
  }

  /** Without a clear the run keeps exactly one row per selected file, in
      selection order; with a clear it ends with no rows. */
  lemma RunKeepsRows(s: Screen, outcomes: seq<Settled<Fields>>, interleaved: seq<seq<UserAction>>)
    requires |outcomes| == |s.selectedFiles| && |interleaved| == |s.selectedFiles|
    requires |s.selectedFiles| > 0
    ensures var r := Processed(s, outcomes, interleaved);
            (NoClears(interleaved) ==>
               |r.results| == |s.selectedFiles| &&
               forall j :: 0 <= j < |r.results| ==>
                 r.results[j].id == FileId(s.selectedFiles[j]) &&
                 r.results[j].fileName == s.selectedFiles[j].name) &&
            (!NoClears(interleaved) ==> r.results == [])
  {
    if NoClears(interleaved) {
      RunRows(Start(s), s.selectedFiles, outcomes, interleaved);
    } else {
      RunNeverRefills(Start(s), s.selectedFiles, outcomes, interleaved);
    }
  }

  /** No two selected files share a key. */
  predicate UniqueIds(files: seq<ImageFile>) {
    var keys := Keys(files);
    forall a, b :: 0 <= a < b < |keys| ==> keys[a] != keys[b]
  }

  /** The rows of a finished run without a clear, one per selected file,
      each its pending row with the updates keyed to it applied. */
  lemma ProcessedRows(s: Screen, outcomes: seq<Settled<Fields>>, interleaved: seq<seq<UserAction>>)
    requires |outcomes| == |s.selectedFiles| && |interleaved| == |s.selectedFiles|
    requires |s.selectedFiles| > 0 && NoClears(interleaved)
    ensures var r := Processed(s, outcomes, interleaved).results;
            var rows, keys := InitialData(s.selectedFiles), Keys(s.selectedFiles);
            |r| == |rows| &&
            forall j :: 0 <= j < |rows| ==> rows[j].id == keys[j] && r[j] == RowAfter(rows[j], keys, outcomes)
  {
    RunRows(Start(s), s.selectedFiles, outcomes, interleaved);
    InitialKeys(s.selectedFiles);
  }

  /** With unique keys and no clear, row `i` ends as file `i`'s outcome
      applied to its pending row. */
  lemma RowGetsOwnOutcome(s: Screen, outcomes: seq<Settled<Fields>>,
                          interleaved: seq<seq<UserAction>>, i: nat)
    requires |outcomes| == |s.selectedFiles| && |interleaved| == |s.selectedFiles|
    requires i < |s.selectedFiles|
    requires UniqueIds(s.selectedFiles) && NoClears(interleaved)
    ensures var r := Processed(s, outcomes, interleaved);
            |r.results| == |s.selectedFiles| &&
            r.results[i] == Resolve(InitialRow(s.selectedFiles[i]), outcomes[i])
  {
    var keys := Keys(s.selectedFiles);
    var row := InitialData(s.selectedFiles)[i];
    ProcessedRows(s, outcomes, interleaved);
    RowAfterLastMatch(row, keys, outcomes, i);
    RowAfterUntouched(row, keys[..i], outcomes[..i]);
  }

  /** With duplicate keys and no clear, row `j` shows the outcome of the
      last file carrying its key. */
  lemma SharedIdTakesLastOutcome(s: Screen, outcomes: seq<Settled<Fields>>,
                                 interleaved: seq<seq<UserAction>>, j: nat, m: nat)
    requires |outcomes| == |s.selectedFiles| && |interleaved| == |s.selectedFiles|
    requires NoClears(interleaved)
    requires j <= m < |s.selectedFiles|
    requires Keys(s.selectedFiles)[m] == Keys(s.selectedFiles)[j]
    requires forall i :: m < i < |s.selectedFiles| ==> Keys(s.selectedFiles)[i] != Keys(s.selectedFiles)[j]
    ensures var r := Processed(s, outcomes, interleaved);
            var last := Resolve(InitialRow(s.selectedFiles[j]), outcomes[m]);
            |r.results| == |s.selectedFiles| &&
            r.results[j].status == last.status &&
            r.results[j].serialNumber == last.serialNumber &&
            r.results[j].password == last.password
  {
    var keys := Keys(s.selectedFiles);
    var row := InitialData(s.selectedFiles)[j];
    ProcessedRows(s, outcomes, interleaved);
    RowAfterLastMatch(row, keys, outcomes, m);
  }

  /** With duplicate keys and no clear, all rows sharing a key end alike in
      every field but their label. */
  lemma SharedIdRowsAgree(s: Screen, outcomes: seq<Settled<Fields>>,
                          interleaved: seq<seq<UserAction>>, i: nat, j: nat)
    requires |outcomes| == |s.selectedFiles| && |interleaved| == |s.selectedFiles|
    requires NoClears(interleaved)
    requires i < |s.selectedFiles| && j < |s.selectedFiles|
    requires FileId(s.selectedFiles[i]) == FileId(s.selectedFiles[j])
    ensures var r := Processed(s, outcomes, interleaved).results;
            |r| == |s.selectedFiles| &&
            r[i].status == r[j].status && r[i].serialNumber == r[j].serialNumber &&
            r[i].password == r[j].password && r[i].errorMessage == r[j].errorMessage
  {
    var rows := InitialData(s.selectedFiles);
    ProcessedRows(s, outcomes, interleaved);
    RowAfterSharedId(rows[i], rows[j], Keys(s.selectedFiles), outcomes);
  }

  /** The message of the last failure among the outcomes, if any. */
  function LastFailure(outcomes: seq<Settled<Fields>>): Option<string> {
    if |outcomes| == 0 then None
    else
      var k := |outcomes| - 1;
      if outcomes[k].Rejected? then Some(MessageOf(outcomes[k].reason)) else LastFailure(outcomes[..k])
  }

  predicate NoActions(interleaved: seq<seq<UserAction>>) {
    forall i :: 0 <= i < |interleaved| ==> interleaved[i] == []
  }

  lemma {:induction false} RunBanner(s: Screen, files: seq<ImageFile>, outcomes: seq<Settled<Fields>>,
                                     interleaved: seq<seq<UserAction>>)
    requires |outcomes| == |files| && |interleaved| == |files|
    requires NoActions(interleaved)
    ensures Run(s, files, outcomes, interleaved).error ==
              if LastFailure(outcomes).Some? then LastFailure(outcomes) else s.error
  {
    if |files| > 0 {
      var k := |files| - 1;
      assert NoActions(interleaved[..k]);
      RunBanner(s, files[..k], outcomes[..k], interleaved[..k]);
      assert interleaved[k] == [];
    }
  }

  /** A failure never stops the run; when the user does nothing meanwhile,
      the banner at the end shows the last failure's message, or nothing. */
  lemma LastFailureWins(s: Screen, outcomes: seq<Settled<Fields>>, interleaved: seq<seq<UserAction>>)
    requires |outcomes| == |s.selectedFiles| && |interleaved| == |s.selectedFiles|
    requires |s.selectedFiles| > 0 && NoActions(interleaved)
    ensures Processed(s, outcomes, interleaved).error == LastFailure(outcomes)
  {
    RunBanner(Start(s), s.selectedFiles, outcomes, interleaved);
  }

  /* ---------- progress ---------- */

  /** `results.filter(r => r.status === 'success' || r.status === 'error').length` */
  function Completed(rows: seq<GiftCardData>): (k: nat)
    ensures k <= |rows|
  {
    if |rows| == 0 then 0
    else Completed(rows[..|rows| - 1]) + (if rows[|rows| - 1].status != Pending then 1 else 0)
  }

  lemma DivBounds(x: nat, d: nat)
    requires d > 0
    ensures d * (x / d) <= x < d * (x / d) + d
  {
  }

  lemma MulCancel(d: nat, a: int, b: int)
    requires d > 0 && d * a < d * b
    ensures a < b
  {
  }

  lemma DivBelow(x: nat, d: nat, q: int)
    requires d > 0 && x < d * q
    ensures x / d < q
  {
    DivBounds(x, d);
    MulCancel(d, x / d, q);
  }

  lemma DivAtLeast(x: nat, d: nat, q: int)
    requires d > 0 && d * q <= x
    ensures q <= x / d
  {
    DivBounds(x, d);
    MulCancel(d, q - 1, x / d);
  }

  /** `k` of `n` as a whole percentage, halves rounded up; 0 when `n` is 0. */
  function Percent(k: nat, n: nat): (p: nat)
    requires k <= n
    ensures p <= 100
    ensures n > 0 ==> 2 * n * p <= 200 * k + n < 2 * n * p + 2 * n
  {
    if n == 0 then 0
    else
      DivBounds(200 * k + n, 2 * n);
      DivBelow(200 * k + n, 2 * n, 101);
      (200 * k + n) / (2 * n)
  }

  /** The progress shown on the button during a run. */
  function Progress(rows: seq<GiftCardData>): (p: nat)
    ensures p <= 100
    ensures |rows| == 0 ==> p == 0
  {
    Percent(Completed(rows), |rows|)
  }

  /** All rows resolved means 100%. */
  lemma PercentAll(n: nat)
    requires n > 0
    ensures Percent(n, n) == 100
  {
    DivAtLeast(201 * n, 2 * n, 100);
  }

  /** Nothing resolved means 0%. */
  lemma PercentNone(n: nat)
    ensures Percent(0, n) == 0
  {
    if n > 0 {
      DivBelow(n, 2 * n, 1);
    }
  }

  /** More resolved rows never show a smaller percentage. */
  lemma PercentMonotone(k1: nat, k2: nat, n: nat)
    requires k1 <= k2 <= n
    ensures Percent(k1, n) <= Percent(k2, n)
  {
    if n > 0 {
      DivBounds(200 * k1 + n, 2 * n);
      DivAtLeast(200 * k2 + n, 2 * n, (200 * k1 + n) / (2 * n));
    }
  }

  /** Every row resolved exactly when the count of completed rows is the row count. */
  lemma {:induction false} CompletedAll(rows: seq<GiftCardData>)
    ensures Completed(rows) == |rows| <==> forall i :: 0 <= i < |rows| ==> rows[i].status != Pending
  {
    if |rows| > 0 {
      var k := |rows| - 1;
      CompletedAll(rows[..k]);
      assert forall i :: 0 <= i < k ==> rows[..k][i] == rows[i];
    }
  }

  /** A row-wise step that never turns a resolved row back to pending never
      lowers the count. */
  lemma {:induction false} CompletedMonotone(a: seq<GiftCardData>, b: seq<GiftCardData>)
    requires |a| == |b|
    requires forall i :: 0 <= i < |a| && a[i].status != Pending ==> b[i].status != Pending
    ensures Completed(a) <= Completed(b)
  {
    if |a| > 0 {
      var k := |a| - 1;
      CompletedMonotone(a[..k], b[..k]);
    }
  }

  /** Progress never goes down when a file settles. */
  lemma ProgressNeverDecreases(rows: seq<GiftCardData>, id: string, outcome: Settled<Fields>)
    ensures Progress(rows) <= Progress(ApplyOutcome(rows, id, outcome))
  {
    var after := ApplyOutcome(rows, id, outcome);
    CompletedMonotone(rows, after);
    PercentMonotone(Completed(rows), Completed(after), |rows|);
  }

  /** Without a clear, the progress shown never goes down from one file of
      the run to the next. */
  lemma ProgressAcrossSteps(s: Screen, files: seq<ImageFile>, outcomes: seq<Settled<Fields>>,
                            interleaved: seq<seq<UserAction>>, i: nat)
    requires |outcomes| == |files| && |interleaved| == |files| && i < |files|
    requires NoClears(interleaved)
    ensures Progress(Run(s, files[..i], outcomes[..i], interleaved[..i]).results) <=
            Progress(Run(s, files[..i + 1], outcomes[..i + 1], interleaved[..i + 1]).results)
  {
    var before := Run(s, files[..i], outcomes[..i], interleaved[..i]);
    RunStep(s, files, outcomes, interleaved, i);
    PerformAllEffect(before, interleaved[i]);
    assert ClearAll !in interleaved[i];
    ProgressNeverDecreases(before.results, FileId(files[i]), outcomes[i]);
  }

  /** A run that was not cleared ends at 100%. */
  lemma ProgressCompleteAfterRun(s: Screen, outcomes: seq<Settled<Fields>>, interleaved: seq<seq<UserAction>>)
    requires |outcomes| == |s.selectedFiles| && |interleaved| == |s.selectedFiles|
    requires |s.selectedFiles| > 0 && NoClears(interleaved)
    ensures Progress(Processed(s, outcomes, interleaved).results) == 100
  {
    var rows := Processed(s, outcomes, interleaved).results;
    NoRowLeftPending(s, outcomes, interleaved);
    RunKeepsRows(s, outcomes, interleaved);
    CompletedAll(rows);
    PercentAll(|rows|);
  }

  /* ---------- the component ---------- */

  class AppComponent {
    var selectedFiles: seq<ImageFile>
    var results: seq<GiftCardData>
    var isLoading: bool
    var error: Option<string>

    function State(): Screen
      reads this
    {
      Screen(selectedFiles, results, isLoading, error)
    }

    constructor ()
      ensures State() == Screen([], [], false, None)
    {
      selectedFiles, results, isLoading, error := [], [], false, None;
    }

    method HandleFilesSelected(files: seq<ImageFile>)
      modifies this
      ensures State() == Select(old(State()), files)
    {
      selectedFiles := selectedFiles + files;
      error := None;
    }

    method ClearFiles()
      modifies this
      ensures State() == Clear(old(State()))
    {
      selectedFiles := [];
      results := [];
      error := None;
    }

    /** What the user does while a call is pending. */
    method AwaitCall(actions: seq<UserAction>)
      modifies this
      ensures State() == PerformAll(old(State()), actions)
    {
      var j := 0;
      while j < |actions|
        invariant 0 <= j <= |actions|
        invariant State() == PerformAll(old(State()), actions[..j])
      {
        match actions[j] {
          case SelectFiles(more) => HandleFilesSelected(more);
          case ClearAll => ClearFiles();
        }
        PerformAllStep(old(State()), actions, j);
        j := j + 1;
      }
      assert actions[..j] == actions;
    }

    /** The body of the `try`/`catch` once the call for `file` has settled. */
    method SettleFile(file: ImageFile, outcome: Settled<Fields>)
      modifies this
      ensures State() == Settle(old(State()), file, outcome)
    {
      if outcome.Rejected? {
        error := Some(MessageOf(outcome.reason));
      }
      results := ApplyOutcome(results, FileId(file), outcome);
    }

    /** `processImages`, with the service's answers given as `outcomes[i]`
        for the i-th file and the user's actions during the i-th call as
        `interleaved[i]`. */
    method ProcessImages(outcomes: seq<Settled<Fields>>, interleaved: seq<seq<UserAction>>)
      requires |outcomes| == |selectedFiles| && |interleaved| == |selectedFiles|
      modifies this
      ensures State() == Processed(old(State()), outcomes, interleaved)
    {
      var files := selectedFiles;
      if |files| == 0 {
        return;
      }
      ghost var started := Start(State());
      isLoading := true;
      error := None;
      results := InitialData(files);
      assert State() == started;
      var i := 0;
      while i < |files|
        invariant 0 <= i <= |files|
        invariant State() == Run(started, files[..i], outcomes[..i], interleaved[..i])
      {
        AwaitCall(interleaved[i]);
        SettleFile(files[i], outcomes[i]);
        RunStep(started, files, outcomes, interleaved, i);
        i := i + 1;
      }
      assert files[..i] == files && outcomes[..i] == outcomes && interleaved[..i] == interleaved;
      isLoading := false;
    }
  }
}
