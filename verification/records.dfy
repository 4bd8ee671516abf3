/** Customer records as the store keeps them: plain JavaScript objects after a JSON round trip. */
module Records {
  import opened Wrappers

  /** A field value: a string, or `null` (the photo of a customer who has none). */
  datatype Value = Str(text: string) | Null

  /** A customer record: field name to value. No field is guaranteed to be present. */
  type Record = map<string, Value>

  /** The collection under the storage slot, in insertion order. */
  type Store = seq<Record>

  const IdKey := "id"
  const CreatedKey := "fechaCreacion"
  const UpdatedKey := "fechaActualizacion"
  const NameKey := "nombre"
  const SurnameKey := "apellido"
  const EmailKey := "correo"

  /** Object spread `{...a, ...b}`: every key of either, and the value of `b` wherever both have one. */
  function Spread(a: Record, b: Record): (r: Record)
    ensures r.Keys == a.Keys + b.Keys
    ensures forall k :: k in b ==> r[k] == b[k]
    ensures forall k :: k in a && k !in b ==> r[k] == a[k]
  {
    a + b
  }

  /** The test `c.id === id`: the record has an `id` field holding exactly that string. */
  predicate HasId(c: Record, id: string)
  {
    IdKey in c && c[IdKey] == Str(id)
  }

  /** No record of `s` has the id. */
  ghost predicate NoMatch(s: Store, id: string)
  {
    forall i :: 0 <= i < |s| ==> !HasId(s[i], id)
  }

  /** Position `i` holds the first record of `s` with the id. */
  ghost predicate IsFirstMatch(s: Store, id: string, i: int)
  {
    0 <= i < |s| && HasId(s[i], id) && forall j :: 0 <= j < i ==> !HasId(s[j], id)
  }

  /** `Array.prototype.findIndex` with the id test, `None` standing for -1. */
  function FirstIndex(s: Store, id: string): (r: Option<nat>)
    ensures r.None? <==> NoMatch(s, id)
    ensures r.Some? ==> IsFirstMatch(s, id, r.value)
  {
    if |s| == 0 then None
    else if HasId(s[0], id) then Some(0)
    else
      match FirstIndex(s[1..], id)
      case None => None
      case Some(k) => Some(k + 1)
  }

  /** The first match is unique, so the two characterisations of a lookup agree. */
  lemma FirstMatchUnique(s: Store, id: string, i: int, j: int)
    requires IsFirstMatch(s, id, i) && IsFirstMatch(s, id, j)
    ensures i == j
  {
  }
}
