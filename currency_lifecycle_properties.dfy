/**
 * Properties that relate several lifecycle calls: idempotence, round trips,
 * what a soft delete hides, and the invariant a whole history of calls keeps.
 */
module CurrencyLifecycleProperties {
  import opened Wrappers
  import opened CurrencyEntity
  import opened CurrencyLifecycle
  import CurrencyRepository

  /** Reactivating twice is reactivating once. */
  lemma ReactivateIsIdempotent(s: Store, code: string)
    requires Keyed(s)
    ensures Reactivate(Reactivate(s, code).store, code) == Step(Reactivate(s, code).result, Reactivate(s, code).store)
  {
  }

  /** A soft delete followed by a reactivation gives back the record and the table. */
  lemma SoftDeleteThenReactivateRestores(s: Store, code: string)
    requires Keyed(s) && StateOf(s, code) == Active
    ensures Reactivate(SoftDelete(s, code).store, code) == Step(Success(s[code]), s)
  {
    var t := SoftDelete(s, code).store;
    assert t[code := t[code].(active := true)] == s;
  }

  /** A soft-deleted code is gone for every operation that needs an active record, and for
      every read; only `create` and `reactivate` still see it. */
  lemma SoftDeletedCodeIsHidden(s: Store, code: string, rq: ReplaceRequest, uq: UpdateRequest, name: string)
    requires Keyed(s) && StateOf(s, code) == Active
    ensures var t := SoftDelete(s, code).store;
      && StateOf(t, code) == Inactive
      && FindActiveByCode(t, code) == Failure(NotFound)
      && Replace(t, code, rq).result == Failure(if rq.code == code then NotFound else InvalidArgument)
      && PartialUpdate(t, code, uq) == Step(Failure(NotFound), t)
      && SoftDelete(t, code) == Step(Failure(NotFound), t)
      && t[code] !in CurrencyRepository.FindAllByIsActiveTrue(t)
      && t[code] !in CurrencyRepository.FindByDisplayNameContainingAndIsActiveTrue(t, name)
      && Reactivate(t, code).result.Success?
  {
  }

  /** Re-creating a soft-deleted code reactivates it with the new fields, keeping it the
      only row for that code. */
  lemma CreateAfterSoftDeleteReactivates(s: Store, req: CreateRequest)
    requires Keyed(s) && StateOf(s, req.code) == Active
    ensures var t := SoftDelete(s, req.code).store;
      && Create(t, req).result == Success(Currency(req.code, req.displayName, Some(req.symbol), true))
      && Create(t, req).store.Keys == s.Keys
  {
  }

  /** A fresh code can be created once; a second create of it is a conflict. */
  lemma CreateTwiceConflicts(s: Store, req: CreateRequest, again: CreateRequest)
    requires Keyed(s) && StateOf(s, req.code) == Absent && again.code == req.code
    ensures Create(s, req).result.Success? && Create(s, req).result.value.active
    ensures Create(Create(s, req).store, again) == Step(Failure(AlreadyExists), Create(s, req).store)
  {
  }

  /** A PATCH with neither field changes nothing and returns the record. */
  lemma EmptyPatchIsNoOp(s: Store, code: string)
    requires Keyed(s) && StateOf(s, code) == Active
    ensures PartialUpdate(s, code, UpdateRequest(Unset, Unset)) == Step(Success(s[code]), s)
  {
    assert s[code := s[code]] == s;
  }

  /** `{"symbol": null}` clears the symbol and leaves the display name as it was. */
  lemma NullSymbolPatchClears(s: Store, code: string)
    requires Keyed(s) && StateOf(s, code) == Active
    ensures var st := PartialUpdate(s, code, UpdateRequest(Unset, Null));
      && st.result.Success?
      && st.result.value.displayName == s[code].displayName
      && st.result.value.symbol == None
  {
  }

  /** Any one call of the service on the table, with the request bodies it received. */
  datatype Op =
    | CreateOp(create: CreateRequest)
    | ReplaceOp(path: string, replace: ReplaceRequest)
    | PartialUpdateOp(target: string, patch: UpdateRequest)
    | SoftDeleteOp(deleted: string)
    | ReactivateOp(reactivated: string)

  /** The body validation each call's request passed through. */
  predicate ValidatedOp(op: Op) {
    match op
    case CreateOp(req) => ValidCreateRequest(req)
    case ReplaceOp(_, req) => ValidReplaceRequest(req)
    case _ => true
  }

  function Apply(s: Store, op: Op): (t: Store)
    requires Keyed(s)
    ensures Keyed(t) && s.Keys <= t.Keys
    ensures StoreInvariant(s) && ValidatedOp(op) ==> StoreInvariant(t)
  {
    match op
    case CreateOp(req) => Create(s, req).store
    case ReplaceOp(code, req) => Replace(s, code, req).store
    case PartialUpdateOp(code, req) => PartialUpdate(s, code, req).store
    case SoftDeleteOp(code) => SoftDelete(s, code).store
    case ReactivateOp(code) => Reactivate(s, code).store
  }

  /** The table after a history of calls, in order. */
  function Run(s: Store, ops: seq<Op>): (t: Store)
    requires Keyed(s)
    ensures Keyed(t)
    decreases |ops|
  {
    if ops == [] then s else Run(Apply(s, ops[0]), ops[1..])
  }

  /** No history of calls ever removes a row (records are never physically deleted), and
      with validated bodies every row keeps the invariant every service write keeps. */
  lemma {:induction false} RunKeepsRowsAndInvariant(s: Store, ops: seq<Op>)
    requires StoreInvariant(s)
    requires forall i :: 0 <= i < |ops| ==> ValidatedOp(ops[i])
    ensures s.Keys <= Run(s, ops).Keys
    ensures StoreInvariant(Run(s, ops))
    decreases |ops|
  {
    if ops != [] {
      assert ValidatedOp(ops[0]);
      RunKeepsRowsAndInvariant(Apply(s, ops[0]), ops[1..]);
    }
  }
}
