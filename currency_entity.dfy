/**
 * The Currency entity, the request bodies of the lifecycle service, its
 * failure taxonomy, and the two string facts the service relies on:
 * Java's `String.trim()` (for "blank") and substring containment (for search).
 */
module CurrencyEntity {
  import opened Wrappers

  /** One row of the CURRENCY table; `code` is the primary key, `symbol` is nullable
      and `active` is the soft-delete flag. */
  datatype Currency = Currency(code: string, displayName: string, symbol: Option<string>, active: bool)

  /** The failures the service raises (ResourceNotFoundException,
      ResourceAlreadyExistsException, IllegalArgumentException). */
  datatype ServiceError = NotFound | AlreadyExists | InvalidArgument

  /** The table, keyed by code. */
  type Store = map<string, Currency>

  datatype CreateRequest = CreateRequest(code: string, displayName: string, symbol: string)

  datatype ReplaceRequest = ReplaceRequest(code: string, displayName: string, symbol: string)

  /** One field of a PATCH body: key absent (`Unset`), `null` (`Null`), or a value. */
  datatype Patch = Unset | Null | Value(s: string)

  datatype UpdateRequest = UpdateRequest(displayName: Patch, symbol: Patch)

  const MinCodeLength := 3
  const MaxCodeLength := 10
  const MaxDisplayNameLength := 50
  const MaxSymbolLength := 10

  /** Java's `trim()` drops leading characters up to U+0020. */
  function TrimStart(s: string): (r: string)
    ensures |r| <= |s| && r == s[|s| - |r|..]
    ensures forall i :: 0 <= i < |s| - |r| ==> s[i] <= ' '
    ensures |r| > 0 ==> r[0] > ' '
  {
    if |s| > 0 && s[0] <= ' ' then TrimStart(s[1..]) else s
  }

  /** ... and trailing ones. */
  function TrimEnd(s: string): (r: string)
    ensures |r| <= |s| && r == s[..|r|]
    ensures forall i :: |r| <= i < |s| ==> s[i] <= ' '
    ensures |r| > 0 ==> r[|r| - 1] > ' '
  {
    if |s| > 0 && s[|s| - 1] <= ' ' then TrimEnd(s[..|s| - 1]) else s
  }

  function Trim(s: string): string {
    TrimEnd(TrimStart(s))
  }

  /** A blank string: every character is at most U+0020, so nothing is left once trimmed
      (`BlankIsEmptyWhenTrimmed`). This is what `s.trim().isEmpty()` and the `@NotBlank`
      constraint reject. */
  predicate IsBlank(s: string) {
    forall i :: 0 <= i < |s| ==> s[i] <= ' '
  }

  lemma BlankIsEmptyWhenTrimmed(s: string)
    ensures IsBlank(s) <==> Trim(s) == []
  {
    var t := TrimStart(s);
    if |t| > 0 {
      assert t[0] > ' ';
      assert |TrimEnd(t)| > 0;
      assert s[|s| - |t|] == t[0];
    }
  }

  /** `name` occurs in `text` starting at index `i`. */
  predicate OccursAt(text: string, name: string, i: int) {
    0 <= i <= |text| - |name| && text[i..i + |name|] == name
  }

  /** `name` occurs in `text` as a contiguous substring (JPQL `LIKE %name%`,
      with the wildcards in `name` escaped). */
  predicate Contains(text: string, name: string) {
    exists i | 0 <= i <= |text| - |name| :: OccursAt(text, name, i)
  }

  /** The same relation, computed by scanning `text` left to right. */
  function ScanContains(text: string, name: string): (b: bool)
    decreases |text|
  {
    if |name| > |text| then false
    else if text[..|name|] == name then true
    else ScanContains(text[1..], name)
  }

  lemma {:induction false} ScanContainsIsContains(text: string, name: string)
    ensures ScanContains(text, name) <==> Contains(text, name)
    decreases |text|
  {
    if |name| > |text| {
    } else if text[..|name|] == name {
      assert OccursAt(text, name, 0);
    } else {
      ScanContainsIsContains(text[1..], name);
      if Contains(text, name) {
        var i :| 0 <= i <= |text| - |name| && OccursAt(text, name, i);
        assert i != 0;
        assert text[1..][i - 1..i - 1 + |name|] == text[i..i + |name|];
        assert OccursAt(text[1..], name, i - 1);
      }
      if Contains(text[1..], name) {
        var i :| 0 <= i <= |text[1..]| - |name| && OccursAt(text[1..], name, i);
        assert text[i + 1..i + 1 + |name|] == text[1..][i..i + |name|];
        assert OccursAt(text, name, i + 1);
      }
    }
  }

  /** The invariant every service write keeps: the code rules of the create/replace bodies
      (CurrencyCreateRequest), the display-name rules they share with PATCH, and the
      symbol's column length. */
  predicate ValidCode(code: string) {
    MinCodeLength <= |code| <= MaxCodeLength && !IsBlank(code)
  }

  predicate ValidDisplayName(name: string) {
    !IsBlank(name) && |name| <= MaxDisplayNameLength
  }

  /** A stored record: the symbol may be null or blank (a PATCH can set either) but is
      never longer than 10 characters. */
  predicate WellFormed(c: Currency) {
    && ValidCode(c.code)
    && ValidDisplayName(c.displayName)
    && (c.symbol.Some? ==> |c.symbol.value| <= MaxSymbolLength)
  }

  /** Every row sits under its own code (the primary key). */
  predicate Keyed(s: Store) {
    forall k :: k in s ==> s[k].code == k
  }

  predicate StoreInvariant(s: Store) {
    Keyed(s) && forall k :: k in s ==> WellFormed(s[k])
  }

  /** What `@Valid` with the `@NotBlank`/`@Size` annotations lets through to `create`. */
  predicate ValidCreateRequest(r: CreateRequest) {
    ValidCode(r.code) && ValidDisplayName(r.displayName) && !IsBlank(r.symbol) && |r.symbol| <= MaxSymbolLength
  }

  /** ... and to `replace`. */
  predicate ValidReplaceRequest(r: ReplaceRequest) {
    ValidCode(r.code) && ValidDisplayName(r.displayName) && !IsBlank(r.symbol) && |r.symbol| <= MaxSymbolLength
  }
}
