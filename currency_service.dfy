/**
 * The currency service as the source writes it: each operation reads a row,
 * changes a working copy of it field by field, and writes it back with `save`.
 * Every method is proved to have exactly the effect the lifecycle functions
 * specify. `saveCount` is a ghost count of the calls to `save`.
 */
module CurrencyServiceImpl {
  import opened Wrappers
  import opened CurrencyEntity
  import CurrencyRepository
  import CurrencyLifecycle

  class CurrencyService {
    /** The CURRENCY table the repository reads and writes. */
    var store: Store
    ghost var saveCount: nat

    ghost predicate Valid()
      reads this
    {
      StoreInvariant(store)
    }

    constructor (initial: Store)
      requires StoreInvariant(initial)
      ensures Valid() && store == initial && saveCount == 0
    {
      store := initial;
      saveCount := 0;
    }

    /** `currencyRepository.save`: the only write to the table. */
    method Save(c: Currency) returns (saved: Currency)
      modifies this
      ensures store == CurrencyRepository.Save(old(store), c) && saved == c
      ensures saveCount == old(saveCount) + 1
    {
      store := store[c.code := c];
      saveCount := saveCount + 1;
      saved := c;
    }

    method FindAllActive() returns (rs: set<Currency>)
      requires Valid()
      ensures forall c :: c in rs ==> c.active && c.code in store && store[c.code] == c
      ensures forall k :: k in store && store[k].active ==> store[k] in rs
    {
      rs := CurrencyRepository.FindAllByIsActiveTrue(store);
    }

    method FindActiveByCode(code: string) returns (r: Result<Currency, ServiceError>)
      ensures r == CurrencyLifecycle.FindActiveByCode(store, code)
    {
      r := GetActiveCurrencyOrThrow(code);
    }

    method SearchActiveByDisplayName(name: string) returns (rs: set<Currency>)
      requires Valid()
      ensures forall c :: c in rs ==> c.active && c.code in store && store[c.code] == c && Contains(c.displayName, name)
      ensures forall k :: k in store && store[k].active && Contains(store[k].displayName, name) ==> store[k] in rs
    {
      rs := CurrencyRepository.FindByDisplayNameContainingAndIsActiveTrue(store, name);
    }

    method Create(request: CreateRequest) returns (r: Result<Currency, ServiceError>)
      requires Valid() && ValidCreateRequest(request)
      modifies this
      ensures Valid()
      ensures r == CurrencyLifecycle.Create(old(store), request).result
      ensures store == CurrencyLifecycle.Create(old(store), request).store
      ensures saveCount == old(saveCount) + (if r.Success? then 1 else 0)
    {
      var found := CurrencyRepository.FindById(store, request.code);
      match found
      case Some(existing) =>
        r := HandleExistingCurrencyOnCreate(existing, request);
      case None =>
        r := CreateNewCurrency(request);
    }

    method Replace(code: string, request: ReplaceRequest) returns (r: Result<Currency, ServiceError>)
      requires Valid() && ValidReplaceRequest(request)
      modifies this
      ensures Valid()
      ensures r == CurrencyLifecycle.Replace(old(store), code, request).result
      ensures store == CurrencyLifecycle.Replace(old(store), code, request).store
      ensures saveCount == old(saveCount) + (if r.Success? then 1 else 0)
    {
      if code != request.code {
        return Failure(InvalidArgument);
      }
      var found := GetActiveCurrencyOrThrow(code);
      if found.Failure? {
        return Failure(found.error);
      }
      var existing := found.value;
      existing := existing.(displayName := request.displayName);
      existing := existing.(symbol := Some(request.symbol));
      var saved := Save(existing);
      r := Success(saved);
    }

    method PartialUpdate(code: string, request: UpdateRequest) returns (r: Result<Currency, ServiceError>)
      requires Valid()
      modifies this
      ensures Valid()
      ensures r == CurrencyLifecycle.PartialUpdate(old(store), code, request).result
      ensures store == CurrencyLifecycle.PartialUpdate(old(store), code, request).store
      ensures saveCount == old(saveCount) + (if r.Success? then 1 else 0)
    {
      var found := GetActiveCurrencyOrThrow(code);
      if found.Failure? {
        return Failure(found.error);
      }
      var named := CurrencyLifecycle.ValidateAndSetDisplayName(found.value, request.displayName);
      if named.Failure? {
        return Failure(named.error);
      }
      var patched := CurrencyLifecycle.ValidateAndSetSymbol(named.value, request.symbol);
      if patched.Failure? {
        return Failure(patched.error);
      }
      var saved := Save(patched.value);
      r := Success(saved);
    }

    method SoftDeleteByCode(code: string) returns (r: Result<(), ServiceError>)
      requires Valid()
      modifies this
      ensures Valid()
      ensures r == CurrencyLifecycle.SoftDelete(old(store), code).result
      ensures store == CurrencyLifecycle.SoftDelete(old(store), code).store
      ensures saveCount == old(saveCount) + (if r.Success? then 1 else 0)
    {
      var found := GetActiveCurrencyOrThrow(code);
      if found.Failure? {
        return Failure(found.error);
      }
      var currency := found.value.(active := false);
      var _ := Save(currency);
      r := Success(());
    }

    method ReactivateByCode(code: string) returns (r: Result<Currency, ServiceError>)
      requires Valid()
      modifies this
      ensures Valid()
      ensures r == CurrencyLifecycle.Reactivate(old(store), code).result
      ensures store == CurrencyLifecycle.Reactivate(old(store), code).store
      ensures old(CurrencyLifecycle.StateOf(store, code)) == CurrencyLifecycle.Inactive
        ==> saveCount == old(saveCount) + 1
      ensures old(CurrencyLifecycle.StateOf(store, code)) != CurrencyLifecycle.Inactive
        ==> saveCount == old(saveCount)
    {
      var found := CurrencyRepository.FindById(store, code);
      if found.None? {
        return Failure(NotFound);
      }
      var currency := found.value;
      if currency.active {
        return Success(currency);
      }
      currency := currency.(active := true);
      var reactivated := Save(currency);
      r := Success(reactivated);
    }

    /** The active row under `code`, or NotFound when it is absent or inactive. */
    method GetActiveCurrencyOrThrow(code: string) returns (r: Result<Currency, ServiceError>)
      ensures r == CurrencyLifecycle.FindActiveByCode(store, code)
    {
      match CurrencyRepository.FindByCodeAndIsActiveTrue(store, code)
      case Some(c) => r := Success(c);
      case None => r := Failure(NotFound);
    }

    /** `create` on a code that has a row: a conflict when the row is active, otherwise the
        row is reactivated with the request's fields and saved. */
    method HandleExistingCurrencyOnCreate(existing: Currency, request: CreateRequest)
      returns (r: Result<Currency, ServiceError>)
      requires Valid() && ValidCreateRequest(request)
      requires request.code in store && existing == store[request.code]
      modifies this
      ensures Valid()
      ensures r == CurrencyLifecycle.Create(old(store), request).result
      ensures store == CurrencyLifecycle.Create(old(store), request).store
      ensures saveCount == old(saveCount) + (if r.Success? then 1 else 0)
    {
      if existing.active {
        return Failure(AlreadyExists);
      }
      var currency := existing;
      currency := currency.(active := true);
      currency := currency.(displayName := request.displayName);
      currency := currency.(symbol := Some(request.symbol));
      var saved := Save(currency);
      r := Success(saved);
    }

    /** `create` on a code with no row: a new entity, active by default, is saved. */
    method CreateNewCurrency(request: CreateRequest) returns (r: Result<Currency, ServiceError>)
      requires Valid() && ValidCreateRequest(request)
      requires request.code !in store
      modifies this
      ensures Valid()
      ensures r == CurrencyLifecycle.Create(old(store), request).result
      ensures store == CurrencyLifecycle.Create(old(store), request).store
      ensures saveCount == old(saveCount) + 1
    {
      var currency := Currency(request.code, request.displayName, Some(request.symbol), true);
      var saved := Save(currency);
      r := Success(saved);
    }
  }
}
