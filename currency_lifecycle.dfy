/**
 * The currency lifecycle as a state machine over the table. Each code is
 * absent, active or inactive; each operation is a function from the table
 * before the call to the result and the table after it. These functions are
 * the specification the service class is proved against.
 */
module CurrencyLifecycle {
  import opened Wrappers
  import opened CurrencyEntity

  datatype CodeState = Absent | Active | Inactive

  function StateOf(s: Store, code: string): CodeState {
    if code !in s then Absent else if s[code].active then Active else Inactive
  }

  /** What one call returns, and the table it leaves behind. */
  datatype Step<T> = Step(result: Result<T, ServiceError>, store: Store)

  /** Every row of `s` other than the one under `code` is still in `s'`, unchanged,
      and `s'` has no row `s` lacks, except possibly under `code`. */
  ghost predicate OnlyTouches(s: Store, s': Store, code: string) {
    && s.Keys <= s'.Keys
    && s'.Keys <= s.Keys + {code}
    && forall k :: k in s && k != code ==> s'[k] == s[k]
  }

  /** The record a create request describes, as it is stored after `create`. */
  function Requested(req: CreateRequest): Currency {
    Currency(req.code, req.displayName, Some(req.symbol), true)
  }

  /** `create`: inserts an absent code, rejects an active one, and reactivates an
      inactive one with the request's fields. */
  function Create(s: Store, req: CreateRequest): (st: Step<Currency>)
    requires Keyed(s)
    ensures Keyed(st.store) && OnlyTouches(s, st.store, req.code)
    ensures st.result.Success? <==> StateOf(s, req.code) != Active
    ensures st.result.Success? ==>
      && st.result.value == Currency(req.code, req.displayName, Some(req.symbol), true)
      && st.store == s[req.code := st.result.value]
    ensures st.result.Failure? ==> st.result.error == AlreadyExists && st.store == s
    ensures StoreInvariant(s) && ValidCreateRequest(req) ==> StoreInvariant(st.store)
  {
    match StateOf(s, req.code)
    case Active => Step(Failure(AlreadyExists), s)
    case _ => Step(Success(Requested(req)), s[req.code := Requested(req)])
  }

  /** `replace`: a path/body code mismatch is rejected before the table is read; only an
      active record is replaced, and both fields are overwritten. */
  function Replace(s: Store, code: string, req: ReplaceRequest): (st: Step<Currency>)
    requires Keyed(s)
    ensures Keyed(st.store) && OnlyTouches(s, st.store, code)
    ensures code != req.code ==> st == Step(Failure(InvalidArgument), s)
    ensures code == req.code && StateOf(s, code) != Active ==> st == Step(Failure(NotFound), s)
    ensures st.result.Success? <==> code == req.code && StateOf(s, code) == Active
    ensures st.result.Success? ==>
      && st.result.value == Currency(code, req.displayName, Some(req.symbol), true)
      && st.store == s[code := st.result.value]
    ensures st.result.Failure? ==> st.store == s
    ensures StoreInvariant(s) && ValidReplaceRequest(req) ==> StoreInvariant(st.store)
  {
    if code != req.code then Step(Failure(InvalidArgument), s)
    else if StateOf(s, code) != Active then Step(Failure(NotFound), s)
    else
      var c := s[code].(displayName := req.displayName, symbol := Some(req.symbol));
      Step(Success(c), s[code := c])
  }

  /** The display-name part of a PATCH body that `partialUpdate` accepts: absent, or a
      value that is neither blank nor longer than 50 characters (explicit null is refused). */
  predicate DisplayNamePatchAccepted(p: Patch) {
    p.Unset? || (p.Value? && ValidDisplayName(p.s))
  }

  /** The symbol part it accepts: absent, explicit null, or at most 10 characters. */
  predicate SymbolPatchAccepted(p: Patch) {
    !p.Value? || |p.s| <= MaxSymbolLength
  }

  /** `validateAndSetDisplayName`, on the record read from the table. */
  function ValidateAndSetDisplayName(c: Currency, p: Patch): (r: Result<Currency, ServiceError>)
    ensures r.Success? <==> DisplayNamePatchAccepted(p)
    ensures r.Failure? ==> r.error == InvalidArgument
    ensures r.Success? ==> r.value == c.(displayName := if p.Value? then p.s else c.displayName)
  {
    match p
    case Unset => Success(c)
    case Null => Failure(InvalidArgument)
    case Value(name) =>
      if IsBlank(name) then Failure(InvalidArgument)
      else if |name| > MaxDisplayNameLength then Failure(InvalidArgument)
      else Success(c.(displayName := name))
  }

  /** `validateAndSetSymbol`: explicit null clears the symbol. */
  function ValidateAndSetSymbol(c: Currency, p: Patch): (r: Result<Currency, ServiceError>)
    ensures r.Success? <==> SymbolPatchAccepted(p)
    ensures r.Failure? ==> r.error == InvalidArgument
    ensures r.Success? && p.Unset? ==> r.value == c
    ensures r.Success? && p.Null? ==> r.value == c.(symbol := None)
    ensures r.Success? && p.Value? ==> r.value == c.(symbol := Some(p.s))
  {
    match p
    case Unset => Success(c)
    case Null => Success(c.(symbol := None))
    case Value(sym) =>
      if |sym| > MaxSymbolLength then Failure(InvalidArgument) else Success(c.(symbol := Some(sym)))
  }

  /** Both field rules in turn: the patch applies only when both fields are acceptable,
      and then changes nothing but the fields it provides. */
  function ApplyPatch(c: Currency, req: UpdateRequest): (r: Result<Currency, ServiceError>)
    ensures r.Success? <==> DisplayNamePatchAccepted(req.displayName) && SymbolPatchAccepted(req.symbol)
    ensures r.Failure? ==> r.error == InvalidArgument
    ensures r.Success? ==> r.value.code == c.code && r.value.active == c.active
    ensures r.Success? && req.displayName.Unset? ==> r.value.displayName == c.displayName
    ensures r.Success? && req.displayName.Value? ==> r.value.displayName == req.displayName.s
    ensures r.Success? && req.symbol.Unset? ==> r.value.symbol == c.symbol
    ensures r.Success? && req.symbol.Null? ==> r.value.symbol == None
    ensures r.Success? && req.symbol.Value? ==> r.value.symbol == Some(req.symbol.s)
    ensures r.Success? && WellFormed(c) ==> WellFormed(r.value)
  {
    match ValidateAndSetDisplayName(c, req.displayName)
    case Failure(e) => Failure(e)
    case Success(named) => ValidateAndSetSymbol(named, req.symbol)
  }

  /** `partialUpdate`: only an active record is patched; a rejected patch leaves the table
      as it was, because `save` is never reached. */
  function PartialUpdate(s: Store, code: string, req: UpdateRequest): (st: Step<Currency>)
    requires Keyed(s)
    ensures Keyed(st.store) && OnlyTouches(s, st.store, code)
    ensures StateOf(s, code) != Active ==> st == Step(Failure(NotFound), s)
    ensures st.result.Success? <==>
      StateOf(s, code) == Active && DisplayNamePatchAccepted(req.displayName) && SymbolPatchAccepted(req.symbol)
    ensures st.result.Success? ==>
      && st.result.value == ApplyPatch(s[code], req).value
      && st.store == s[code := st.result.value]
    ensures st.result.Failure? ==> st.store == s
    ensures StoreInvariant(s) ==> StoreInvariant(st.store)
  {
    if StateOf(s, code) != Active then Step(Failure(NotFound), s)
    else
      match ApplyPatch(s[code], req)
      case Failure(e) => Step(Failure(e), s)
      case Success(c) => Step(Success(c), s[code := c])
  }

  /** `softDeleteByCode`: an active record becomes inactive and nothing else changes. */
  function SoftDelete(s: Store, code: string): (st: Step<()>)
    requires Keyed(s)
    ensures Keyed(st.store) && OnlyTouches(s, st.store, code)
    ensures st.result.Success? <==> StateOf(s, code) == Active
    ensures st.result.Success? ==> st.store == s[code := s[code].(active := false)]
    ensures st.result.Failure? ==> st.result.error == NotFound && st.store == s
    ensures StoreInvariant(s) ==> StoreInvariant(st.store)
  {
    if StateOf(s, code) != Active then Step(Failure(NotFound), s)
    else Step(Success(()), s[code := s[code].(active := false)])
  }

  /** `reactivateByCode`: fails only on an absent code; an active record is returned as it
      is, with the table untouched. */
  function Reactivate(s: Store, code: string): (st: Step<Currency>)
    requires Keyed(s)
    ensures Keyed(st.store) && OnlyTouches(s, st.store, code)
    ensures st.result.Success? <==> code in s
    ensures st.result.Success? ==>
      && st.result.value == s[code].(active := true)
      && st.store == s[code := st.result.value]
    ensures st.result.Failure? ==> st.result.error == NotFound && st.store == s
    ensures StateOf(s, code) == Active ==> st == Step(Success(s[code]), s)
    ensures StoreInvariant(s) ==> StoreInvariant(st.store)
  {
    match StateOf(s, code)
    case Absent => Step(Failure(NotFound), s)
    case Active => Step(Success(s[code]), s)
    case Inactive => Step(Success(s[code].(active := true)), s[code := s[code].(active := true)])
  }

  /** `findActiveByCode` (and `getActiveCurrencyOrThrow`): an inactive record is not found. */
  function FindActiveByCode(s: Store, code: string): (r: Result<Currency, ServiceError>)
    ensures r.Success? <==> StateOf(s, code) == Active
    ensures r.Success? ==> r.value == s[code] && r.value.active
    ensures r.Failure? ==> r.error == NotFound
  {
    if StateOf(s, code) == Active then Success(s[code]) else Failure(NotFound)
  }
}
