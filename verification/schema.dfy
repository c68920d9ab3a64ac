/** What document validation and a unique index report. Validation collects every failing
    path before it refuses a document; a unique index refuses a second document with a key
    already stored. */
module Schema {

  datatype FieldError =
    | Required(path: string)                                   // required field absent (or an empty string)
    | NotInEnum(path: string, index: nat, value: string)      // enum violation; `index` is the array slot, 0 for a scalar

  datatype StoreError =
    | Invalid(errors: seq<FieldError>)
    | DuplicateKey(key: string)

  /** No key occurs twice. */
  predicate DistinctKeys(keys: seq<string>) {
    forall i, j :: 0 <= i < j < |keys| ==> keys[i] != keys[j]
  }

  /** Appending a key that is not yet present keeps the keys distinct. */
  lemma AppendFreshKey(keys: seq<string>, k: string)
    requires DistinctKeys(keys) && k !in keys
    ensures DistinctKeys(keys + [k])
  {
    forall i, j | 0 <= i < j < |keys| + 1
      ensures (keys + [k])[i] != (keys + [k])[j]
    {
      if j == |keys| {
        assert (keys + [k])[i] == keys[i];
      }
    }
  }
}
