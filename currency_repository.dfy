/**
 * The derived queries of the Spring Data repository over the CURRENCY table,
 * as functions of the table's contents. A JPA `List` result holds each row at
 * most once (rows are distinct by primary key) in no promised order, so it is a
 * `set` here.
 */
module CurrencyRepository {
  import opened Wrappers
  import opened CurrencyEntity

  /** `findById`: the row stored under `code`, whatever its active flag. */
  function FindById(s: Store, code: string): (r: Option<Currency>)
    ensures r.Some? <==> code in s
    ensures r.Some? ==> r.value == s[code]
  {
    if code in s then Some(s[code]) else None
  }

  /** `findByCodeAndIsActiveTrue`: an inactive row is not found. */
  function FindByCodeAndIsActiveTrue(s: Store, code: string): (r: Option<Currency>)
    ensures r.Some? <==> code in s && s[code].active
    ensures r.Some? ==> r.value == s[code] && r.value.active
  {
    match FindById(s, code)
    case Some(c) => if c.active then Some(c) else None
    case None => None
  }

  /** `findAllByIsActiveTrue`: exactly the active rows. */
  function FindAllByIsActiveTrue(s: Store): (rs: set<Currency>)
    requires Keyed(s)
    ensures forall c :: c in rs ==> c.active && c.code in s && s[c.code] == c
    ensures forall k :: k in s && s[k].active ==> s[k] in rs
  {
    set k | k in s && s[k].active :: s[k]
  }

  /** `findByDisplayNameContainingAndIsActiveTrue`: the query scans each active row's
      display name; the result is exactly the active rows whose display name contains
      `name` (case-sensitive, so an empty `name` matches every active row). */
  function FindByDisplayNameContainingAndIsActiveTrue(s: Store, name: string): (rs: set<Currency>)
    requires Keyed(s)
    ensures forall c :: c in rs ==> c.active && c.code in s && s[c.code] == c && Contains(c.displayName, name)
    ensures forall k :: k in s && s[k].active && Contains(s[k].displayName, name) ==> s[k] in rs
  {
    assert forall text :: ScanContains(text, name) <==> Contains(text, name) by {
      forall text ensures ScanContains(text, name) <==> Contains(text, name) {
        ScanContainsIsContains(text, name);
      }
    }
    set k | k in s && s[k].active && ScanContains(s[k].displayName, name) :: s[k]
  }

  /** `save`: an upsert keyed by the entity's own code. */
  function Save(s: Store, c: Currency): (s': Store)
    ensures c.code in s' && s'[c.code] == c
    ensures s'.Keys == s.Keys + {c.code}
    ensures forall k :: k in s && k != c.code ==> s'[k] == s[k]
  {
    s[c.code := c]
  }
}
