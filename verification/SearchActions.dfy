/** The queue of search-index actions (shared/search/action_processor.go):
    changes to the search engine are stored as actions and processed one at
    a time, first in first out per document, with a number of tries and a
    cooldown between them. The search engine itself is not modelled; a call
    to it is recorded and its outcome is a parameter. */
module SearchActions {
  import opened Common
  import Search

  const TypeAddOrUpdateDocument: string := "add-or-update-document"
  const TypeDeleteDocument: string := "delete-document"
  const TypeRebuildIndex: string := "rebuild-index"

  /** The waits of `run`, in milliseconds. */
  const EmptyCooldown: Time := 2000
  const ErrorCooldown: Time := 16000

  /** The stored options of an action as the handlers unmarshal them: either
      they are no JSON object, or they are one whose `document` and
      `document_id` fields are read, absent fields being empty. */
  datatype Options = Undecodable | Decoded(document: Search.Document, documentId: string)

  /** A row of the action table. Open actions have tries left. */
  datatype Action = Action(
    id: int,
    created: Time,
    index: string,
    documentId: Option<string>,
    actionType: string,
    options: Options,
    remainingTries: int,
    retryCooldown: Time,
    processingTs: Time,
    errMessage: Option<string>)

  /** A call to the search engine (or to the configured rebuild function). */
  datatype ClientCall =
    | AddOrUpdateDocuments(index: string, document: Search.Document)
    | DeleteDocumentsByID(index: string, documentId: string)
    | RebuildIndex(index: string)

  // ---------------------------------------------------------------------------
  // Handling one action

  /** `handlerFn`: the call an action leads to. An unknown action type,
      options that do not unmarshal, and a rebuild without a configured
      rebuild function are internal errors. A rebuild does not read the
      options. */
  function HandlerFn(a: Action, hasRebuildFn: bool): (r: Result<ClientCall>)
    ensures a.actionType !in {TypeAddOrUpdateDocument, TypeDeleteDocument, TypeRebuildIndex} ==> r == Err(Internal)
    ensures r.Err? ==> r.code == Internal
    ensures a.actionType == TypeAddOrUpdateDocument ==>
      (r.Ok? <==> a.options.Decoded?) && (r.Ok? ==> r.value == AddOrUpdateDocuments(a.index, a.options.document))
    ensures a.actionType == TypeDeleteDocument ==>
      (r.Ok? <==> a.options.Decoded?) && (r.Ok? ==> r.value == DeleteDocumentsByID(a.index, a.options.documentId))
    ensures a.actionType == TypeRebuildIndex ==> (r.Ok? <==> hasRebuildFn) && (r.Ok? ==> r.value == RebuildIndex(a.index))
  {
    if a.actionType == TypeAddOrUpdateDocument then
      if a.options.Undecodable? then Err(Internal) else Ok(AddOrUpdateDocuments(a.index, a.options.document))
    else if a.actionType == TypeDeleteDocument then
      if a.options.Undecodable? then Err(Internal) else Ok(DeleteDocumentsByID(a.index, a.options.documentId))
    else if a.actionType == TypeRebuildIndex then
      if !hasRebuildFn then Err(Internal) else Ok(RebuildIndex(a.index))
    else Err(Internal)
  }

  /** Every call targets the action's index, and which call follows from the
      action type alone. */
  lemma CallMatchesActionType(a: Action, hasRebuildFn: bool)
    requires HandlerFn(a, hasRebuildFn).Ok?
    ensures HandlerFn(a, hasRebuildFn).value.index == a.index
    ensures HandlerFn(a, hasRebuildFn).value.AddOrUpdateDocuments? <==> a.actionType == TypeAddOrUpdateDocument
    ensures HandlerFn(a, hasRebuildFn).value.DeleteDocumentsByID? <==> a.actionType == TypeDeleteDocument
    ensures HandlerFn(a, hasRebuildFn).value.RebuildIndex? <==> a.actionType == TypeRebuildIndex
  {
  }

  // ---------------------------------------------------------------------------
  // Choosing the next action

  predicate IsOpen(a: Action) {
    a.remainingTries > 0
  }

  /** Actions of one index and one document (or of one index without a
      document, as SQL groups nulls together) are processed in id order. */
  predicate SameGroup(a: Action, b: Action) {
    a.index == b.index && a.documentId == b.documentId
  }

  /** `h` is the open action with the least id of its group. */
  predicate IsGroupHead(actions: seq<Action>, h: Action) {
    && IsOpen(h)
    && forall s :: s in actions && IsOpen(s) && SameGroup(s, h) ==> h.id <= s.id
  }

  /** An action may be tried: it never failed, or its retry cooldown has
      passed since the last try. */
  predicate CooledDown(a: Action, now: Time) {
    a.errMessage.None? || a.processingTs < now - a.retryCooldown
  }

  /** The rows the second query of `next` lets through. */
  predicate Candidate(actions: seq<Action>, a: Action, now: Time) {
    && IsOpen(a)
    && (exists h :: h in actions && IsGroupHead(actions, h) && h.id == a.id)
    && CooledDown(a, now)
  }

  /** The selection of `next`: the candidate with the least id, if any. */
  function NextAction(actions: seq<Action>, now: Time): (r: Option<Action>)
    ensures r.None? <==> forall i :: 0 <= i < |actions| ==> !Candidate(actions, actions[i], now)
    ensures r.Some? ==> r.value in actions && Candidate(actions, r.value, now)
    ensures r.Some? ==> forall s :: s in actions && Candidate(actions, s, now) ==> r.value.id <= s.id
  {
    FirstMin(Filter((a: Action) => Candidate(actions, a, now), actions), (a: Action) => a.id)
  }

  /** Action ids are unique, as the table's serial column makes them. */
  predicate UniqueIds(actions: seq<Action>) {
    forall i, j :: 0 <= i < |actions| && 0 <= j < |actions| && i != j ==> actions[i].id != actions[j].id
  }

  /** Per-document order: the chosen action is the oldest open action of its
      group, so a later change to a document never overtakes an earlier one,
      even while the earlier one waits for its cooldown. */
  lemma {:induction false} NextIsGroupHead(actions: seq<Action>, now: Time)
    requires UniqueIds(actions)
    requires NextAction(actions, now).Some?
    ensures IsGroupHead(actions, NextAction(actions, now).value)
  {
    var a := NextAction(actions, now).value;
    var h :| h in actions && IsGroupHead(actions, h) && h.id == a.id;
    var i :| 0 <= i < |actions| && actions[i] == a;
    var j :| 0 <= j < |actions| && actions[j] == h;
    assert i == j;
  }

  /** An open action that never failed and heads its group is always a
      candidate, so the queue is never idle while such an action exists. */
  lemma FreshHeadIsProcessed(actions: seq<Action>, now: Time, a: Action)
    requires a in actions && IsGroupHead(actions, a) && a.errMessage.None?
    ensures NextAction(actions, now).Some?
    ensures NextAction(actions, now).value.id <= a.id
  {
    var i :| 0 <= i < |actions| && actions[i] == a;
    assert Candidate(actions, actions[i], now);
  }

  // ---------------------------------------------------------------------------
  // Processing one action

  /** The outcome of one call of `next`: the table afterwards, whether more
      actions may be waiting, and the call made, if any. */
  datatype NextOutcome = NextOutcome(actions: seq<Action>, more: bool, call: Option<ClientCall>)

  /** The row after a try: success closes it and clears the error, failure
      uses up one try and records the error. */
  function AfterTry(a: Action, succeeded: bool, errText: string, now: Time): (r: Action)
    ensures succeeded ==> r.remainingTries == 0 && r.errMessage.None?
    ensures !succeeded ==> r.remainingTries == a.remainingTries - 1 && r.errMessage == Some(errText)
    ensures r.processingTs == now
    ensures r.id == a.id && r.index == a.index && r.documentId == a.documentId && r.actionType == a.actionType
    ensures r.options == a.options && r.retryCooldown == a.retryCooldown && r.created == a.created
  {
    a.(remainingTries := if succeeded then 0 else a.remainingTries - 1,
       processingTs := now,
       errMessage := if succeeded then None else Some(errText))
  }

  /** `dbActionStore.next`: the chosen action is handled and its row is
      written back; `callFails` says whether the search engine or rebuild
      function reports an error for a call, and `errText` is the recorded
      error text. Nothing chosen means no more actions. */
  function Next(actions: seq<Action>, now: Time, hasRebuildFn: bool, callFails: ClientCall -> bool, errText: string): (r: NextOutcome)
    ensures r.more <==> NextAction(actions, now).Some?
    ensures (forall i :: 0 <= i < |actions| ==> !IsOpen(actions[i])) ==> !r.more
    ensures !r.more ==> r.actions == actions && r.call.None?
    ensures r.more ==>
      var a := NextAction(actions, now).value;
      var handled := HandlerFn(a, hasRebuildFn);
      && r.call == (if handled.Ok? then Some(handled.value) else None)
      && |r.actions| == |actions|
      && forall i :: 0 <= i < |actions| ==>
           r.actions[i] == (if actions[i].id == a.id
                            then AfterTry(actions[i], handled.Ok? && !callFails(handled.value), errText, now)
                            else actions[i])
  {
    match NextAction(actions, now)
    case None => NextOutcome(actions, false, None)
    case Some(a) =>
      var handled := HandlerFn(a, hasRebuildFn);
      var succeeded := handled.Ok? && !callFails(handled.value);
      var written := seq(|actions|, i requires 0 <= i < |actions| =>
        if actions[i].id == a.id then AfterTry(actions[i], succeeded, errText, now) else actions[i]);
      NextOutcome(written, true, if handled.Ok? then Some(handled.value) else None)
  }

  /** The tries left over all actions (closed ones count nothing). */
  function TotalTries(actions: seq<Action>): (n: nat)
    ensures (forall i :: 0 <= i < |actions| ==> !IsOpen(actions[i])) ==> n == 0
  {
    if |actions| == 0 then 0
    else (if IsOpen(actions[0]) then actions[0].remainingTries else 0) + TotalTries(actions[1..])
  }

  /** Lowering the tries of open rows and leaving the rest alone lowers the
      total, strictly when some open row is lowered. */
  lemma {:induction false} TotalTriesDecreases(before: seq<Action>, after: seq<Action>, k: int)
    requires |before| == |after| && 0 <= k < |before|
    requires forall i :: 0 <= i < |before| ==> after[i].remainingTries <= before[i].remainingTries
    requires IsOpen(before[k]) && after[k].remainingTries < before[k].remainingTries
    ensures TotalTries(after) < TotalTries(before)
    decreases |before|
  {
    if k == 0 {
      TotalTriesAtMost(before[1..], after[1..]);
    } else {
      TotalTriesDecreases(before[1..], after[1..], k - 1);
    }
  }

  lemma {:induction false} TotalTriesAtMost(before: seq<Action>, after: seq<Action>)
    requires |before| == |after|
    requires forall i :: 0 <= i < |before| ==> after[i].remainingTries <= before[i].remainingTries
    ensures TotalTries(after) <= TotalTries(before)
    decreases |before|
  {
    if |before| > 0 {
      TotalTriesAtMost(before[1..], after[1..]);
    }
  }

  /** The queue drains: every call of `next` that handles an action lowers
      the total number of tries left, whether the handling succeeded or not,
      so only finitely many handlings can follow. */
  lemma NextUsesUpTries(actions: seq<Action>, now: Time, hasRebuildFn: bool, callFails: ClientCall -> bool, errText: string)
    requires UniqueIds(actions)
    requires Next(actions, now, hasRebuildFn, callFails, errText).more
    ensures TotalTries(Next(actions, now, hasRebuildFn, callFails, errText).actions) < TotalTries(actions)
  {
    var a := NextAction(actions, now).value;
    var r := Next(actions, now, hasRebuildFn, callFails, errText);
    var k :| 0 <= k < |actions| && actions[k] == a;
    forall i | 0 <= i < |actions| ensures r.actions[i].remainingTries <= actions[i].remainingTries {
      if i != k {
        assert actions[i].id != a.id;
      }
    }
    TotalTriesDecreases(actions, r.actions, k);
  }

  /** An action of an unknown type, or a rebuild without a rebuild function,
      fails on every try and is closed once its tries are used up; it calls
      nothing. */
  lemma UnhandledActionFails(actions: seq<Action>, now: Time, hasRebuildFn: bool, callFails: ClientCall -> bool, errText: string)
    requires NextAction(actions, now).Some?
    requires var a := NextAction(actions, now).value;
      a.actionType !in {TypeAddOrUpdateDocument, TypeDeleteDocument} && (a.actionType == TypeRebuildIndex ==> !hasRebuildFn)
    ensures var a := NextAction(actions, now).value;
      var r := Next(actions, now, hasRebuildFn, callFails, errText);
      && r.call.None?
      && forall i :: 0 <= i < |actions| && actions[i].id == a.id ==>
           r.actions[i].remainingTries == actions[i].remainingTries - 1 && r.actions[i].errMessage == Some(errText)
  {
  }

  /** `run`: the wait before the next call of `next`. A failing store waits
      longest, an empty queue waits for polling, and a processed action is
      followed at once by the next. */
  function RunCooldown(next: Result<bool>): (wait: Time)
    ensures next.Err? ==> wait == ErrorCooldown
    ensures next == Ok(false) ==> wait == EmptyCooldown
    ensures wait == 0 <==> next == Ok(true)
  {
    if next.Err? then ErrorCooldown else if !next.value then EmptyCooldown else 0
  }
}
