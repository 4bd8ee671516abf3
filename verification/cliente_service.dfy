/** The customer store: the six operations of the local-storage mock, each a pure function from the
    contents of the storage slot (and the clock readings it needs) to the new slot contents and the
    value the JavaScript promise resolves with or the error it rejects with. */
module ClienteService {
  import opened Wrappers
  import opened Seqs
  import opened Text
  import opened Records

  /** The storage slot `'clientes'`: absent, or holding a collection (JSON round trips are the identity). */
  type Slot = Option<Store>

  /** Errors the operations reject with. */
  datatype Error =
    | NotFound(message: string)  // update of an id no record has
    | TypeError                  // search reached a missing or null name, surname or e-mail field

  const NotFoundMessage := "Cliente no encontrado"

  /** Reading the slot: an absent slot is the empty collection. */
  function Load(slot: Slot): (s: Store)
    ensures slot.None? ==> s == []
    ensures slot.Some? ==> s == slot.value
  {
    match slot
    case None => []
    case Some(stored) => stored
  }

  /** Writing the whole collection back. */
  function Save(s: Store): (slot: Slot)
    ensures Load(slot) == s
  {
    Some(s)
  }

  /** List every record, in insertion order. */
  function ObtenerClientes(slot: Slot): (s: Store)
    ensures slot.None? ==> s == []
    ensures slot.Some? ==> s == slot.value
  {
    Load(slot)
  }

  /** Look a record up by id: the first record with that id, or `None` (`undefined`) when none has it. */
  function ObtenerClientePorId(slot: Slot, id: string): (r: Option<Record>)
    ensures r.None? <==> NoMatch(Load(slot), id)
    ensures r.Some? ==> exists i :: IsFirstMatch(Load(slot), id, i) && r.value == Load(slot)[i]
  {
    var clientes := Load(slot);
    match FirstIndex(clientes, id)
    case None => None
    case Some(i) => Some(clientes[i])
  }

  /** The record `{id: newId, ...data, fechaCreacion: ts}`. */
  function NewCliente(data: Record, newId: string, ts: string): (c: Record)
    ensures c.Keys == data.Keys + {IdKey, CreatedKey}
    ensures c[CreatedKey] == Str(ts)
    ensures c[IdKey] == if IdKey in data then data[IdKey] else Str(newId)
    ensures forall k :: k in data && k != CreatedKey ==> c[k] == data[k]
  {
    Spread(Spread(map[IdKey := Str(newId)], data), map[CreatedKey := Str(ts)])
  }

  /** The slot after a create, and the record the create resolves with. */
  datatype Created = Created(slot: Slot, cliente: Record)

  /** Create: append the new record and save. `newId` is `Date.now().toString()` and `ts` the ISO
      timestamp; nothing makes `newId` differ from the ids already stored. */
  function CrearCliente(slot: Slot, data: Record, newId: string, ts: string): (r: Created)
    ensures r.cliente == NewCliente(data, newId, ts)
    ensures r.slot == Some(Load(slot) + [r.cliente])
    ensures |Load(r.slot)| == |Load(slot)| + 1
    ensures forall i :: 0 <= i < |Load(slot)| ==> Load(r.slot)[i] == Load(slot)[i]
    ensures Load(r.slot)[|Load(slot)|] == r.cliente
  {
    var clientes := Load(slot);
    var nuevo := NewCliente(data, newId, ts);
    Created(Save(clientes + [nuevo]), nuevo)
  }

  /** The record `{...prev, ...data, fechaActualizacion: ts}`. */
  function Patched(prev: Record, data: Record, ts: string): (c: Record)
    ensures c.Keys == prev.Keys + data.Keys + {UpdatedKey}
    ensures c[UpdatedKey] == Str(ts)
    ensures forall k :: k in data && k != UpdatedKey ==> c[k] == data[k]
    ensures forall k :: k in prev && k !in data && k != UpdatedKey ==> c[k] == prev[k]
  {
    Spread(Spread(prev, data), map[UpdatedKey := Str(ts)])
  }

  /** The slot after an update, and what the update resolves or rejects with. */
  datatype Updated = Updated(slot: Slot, result: Result<Record, Error>)

  /** Update: merge `data` into the first record with the id and stamp it; reject with "not found",
      saving nothing, when no record has the id. */
  function ActualizarCliente(slot: Slot, id: string, data: Record, ts: string): (r: Updated)
    ensures r.result.Failure? <==> NoMatch(Load(slot), id)
    ensures r.result.Failure? ==> r.result.error == NotFound(NotFoundMessage) && r.slot == slot
    ensures r.result.Success? ==>
      exists i :: IsFirstMatch(Load(slot), id, i)
        && r.result.value == Patched(Load(slot)[i], data, ts)
        && r.slot == Some(Load(slot)[i := r.result.value])
    ensures r.result.Success? ==>
      && |Load(r.slot)| == |Load(slot)|
      && forall j :: 0 <= j < |Load(slot)| && !IsFirstMatch(Load(slot), id, j) ==>
           Load(r.slot)[j] == Load(slot)[j]
  {
    var clientes := Load(slot);
    match FirstIndex(clientes, id)
    case None => Updated(slot, Failure(NotFound(NotFoundMessage)))
    case Some(i) =>
      var c := Patched(clientes[i], data, ts);
      Updated(Save(clientes[i := c]), Success(c))
  }

  /** The acknowledgement `{success: true, id}` a delete resolves with. */
  datatype Ack = Ack(success: bool, id: string)

  /** The slot after a delete, and its acknowledgement. */
  datatype Deleted = Deleted(slot: Slot, ack: Ack)

  /** `clientes.filter(c => c.id !== id)`. */
  function WithoutId(s: Store, id: string): Store
  {
    Filter(s, (c: Record) => !HasId(c, id))
  }

  /** Delete: keep every record whose id differs, in order, and save; this never fails. */
  function EliminarCliente(slot: Slot, id: string): (r: Deleted)
    ensures r.ack == Ack(true, id)
    ensures r.slot.Some?
    ensures IsSubseq(Load(r.slot), Load(slot))
    ensures forall c :: c in Load(r.slot) ==> c in Load(slot) && !HasId(c, id)
    ensures NoMatch(Load(r.slot), id)
    ensures forall c :: c in Load(slot) && !HasId(c, id) ==>
      multiset(Load(r.slot))[c] == multiset(Load(slot))[c]
  {
    var keep := (c: Record) => !HasId(c, id);
    var kept := WithoutId(Load(slot), id);
    FilterIsSubseq(Load(slot), keep);
    FilterCounts(Load(slot), keep);
    assert forall i :: 0 <= i < |kept| ==> kept[i] in kept;
    Deleted(Save(kept), Ack(true, id))
  }

  /** `c[key].toLowerCase().includes(needle)`, `None` standing for the TypeError thrown when the
      field is missing or null. */
  function FieldIncludes(c: Record, key: string, needle: string): Option<bool>
  {
    if key in c && c[key].Str? then Some(Includes(Lower(c[key].text), needle)) else None
  }

  /** The search callback for one record: the three tests joined by a short-circuiting `||`. */
  function Judge(c: Record, needle: string): Option<bool>
  {
    match FieldIncludes(c, NameKey, needle)
    case None => None
    case Some(true) => Some(true)
    case Some(false) =>
      match FieldIncludes(c, SurnameKey, needle)
      case None => None
      case Some(true) => Some(true)
      case Some(false) => FieldIncludes(c, EmailKey, needle)
  }

  /** `clientes.filter(callback)`, which rejects as soon as the callback throws. */
  function FilterMatching(s: Store, needle: string): Result<Store, Error>
  {
    if |s| == 0 then Success([])
    else
      match Judge(s[0], needle)
      case None => Failure(TypeError)
      case Some(keep) =>
        match FilterMatching(s[1..], needle)
        case Failure(e) => Failure(e)
        case Success(rest) => Success(if keep then [s[0]] + rest else rest)
  }

  /** Field `key` is a string whose lower-cased form contains the lower-cased term. */
  ghost predicate FieldMatches(c: Record, key: string, term: string)
  {
    key in c && c[key].Str? && exists i :: OccursAt(Lower(c[key].text), Lower(term), i)
  }

  /** The search condition: the term occurs, ignoring case, in the name, surname or e-mail. */
  ghost predicate MatchesTerm(c: Record, term: string)
  {
    FieldMatches(c, NameKey, term) || FieldMatches(c, SurnameKey, term) || FieldMatches(c, EmailKey, term)
  }

  /** Field `key` holds a string. */
  predicate IsText(c: Record, key: string)
  {
    key in c && c[key].Str?
  }

  /** Evaluating the search condition left to right reaches a field that is missing or null. */
  ghost predicate Throws(c: Record, term: string)
  {
    || !IsText(c, NameKey)
    || (!FieldMatches(c, NameKey, term) && !IsText(c, SurnameKey))
    || (!FieldMatches(c, NameKey, term) && !FieldMatches(c, SurnameKey, term) && !IsText(c, EmailKey))
  }

  /** Search: the records matching the term, in order; rejects with a TypeError when the test reaches
      a missing or null field of any record. */
  function BuscarClientes(slot: Slot, termino: string): (r: Result<Store, Error>)
    ensures r.Failure? <==> exists i :: 0 <= i < |Load(slot)| && Throws(Load(slot)[i], termino)
    ensures r.Failure? ==> r.error == TypeError
    ensures r.Success? ==> IsSubseq(r.value, Load(slot))
    ensures r.Success? ==> forall c :: c in r.value ==> MatchesTerm(c, termino)
    ensures r.Success? ==> forall c :: c in Load(slot) && MatchesTerm(c, termino) ==> c in r.value
    ensures r.Success? ==> forall c :: c in Load(slot) ==>
      multiset(r.value)[c] == if MatchesTerm(c, termino) then multiset(Load(slot))[c] else 0
  {
    var clientes := Load(slot);
    SearchSpec(clientes, termino);
    FilterMatching(clientes, Lower(termino))
  }

  /** The proof of the search contract, over the collection read from the slot. */
  lemma SearchSpec(s: Store, term: string)
    ensures FilterMatching(s, Lower(term)).Failure? <==> exists i :: 0 <= i < |s| && Throws(s[i], term)
    ensures FilterMatching(s, Lower(term)).Failure? ==> FilterMatching(s, Lower(term)).error == TypeError
    ensures FilterMatching(s, Lower(term)).Success? ==>
      var found := FilterMatching(s, Lower(term)).value;
      && IsSubseq(found, s)
      && (forall c :: c in found ==> MatchesTerm(c, term))
      && (forall c :: c in s && MatchesTerm(c, term) ==> c in found)
      && (forall c :: c in s ==> multiset(found)[c] == if MatchesTerm(c, term) then multiset(s)[c] else 0)
  {
    var n := Lower(term);
    JudgeAll(s, term);
    FilterMatchingIsFilter(s, n);
    var r := FilterMatching(s, n);
    if r.Success? {
      var keep := KeepFor(n);
      var found := Filter(s, keep);
      assert r.value == found;
      FilterIsSubseq(s, keep);
      FilterCounts(s, keep);
      forall c | c in s
        ensures keep(c) == MatchesTerm(c, term)
      {
        var i :| 0 <= i < |s| && s[i] == c;
        assert Judge(s[i], n).Some?;
      }
    }
  }

  /** The callback as a predicate, for use with `Filter`. */
  function KeepFor(needle: string): Record -> bool
  {
    (c: Record) => Judge(c, needle) == Some(true)
  }

  /** The callback throws exactly when `Throws` says so, and otherwise answers `MatchesTerm`. */
  lemma JudgeSpec(c: Record, term: string)
    ensures Judge(c, Lower(term)) == if Throws(c, term) then None else Some(MatchesTerm(c, term))
  {
    var n := Lower(term);
    forall key | IsText(c, key)
      ensures FieldIncludes(c, key, n) == Some(FieldMatches(c, key, term))
    {
      IncludesSpec(Lower(c[key].text), n);
    }
  }

  /** `JudgeSpec` for every record of `s`. */
  lemma JudgeAll(s: Store, term: string)
    ensures forall i :: 0 <= i < |s| ==>
      Judge(s[i], Lower(term)) == if Throws(s[i], term) then None else Some(MatchesTerm(s[i], term))
  {
    forall i | 0 <= i < |s| {
      JudgeSpec(s[i], term);
    }
  }

  /** The aborting filter fails exactly when some callback throws, and otherwise is `Filter`. */
  lemma {:induction false} FilterMatchingIsFilter(s: Store, needle: string)
    ensures FilterMatching(s, needle).Failure? <==> exists i :: 0 <= i < |s| && Judge(s[i], needle).None?
    ensures FilterMatching(s, needle).Failure? ==> FilterMatching(s, needle).error == TypeError
    ensures FilterMatching(s, needle).Success? ==> FilterMatching(s, needle).value == Filter(s, KeepFor(needle))
  {
    if |s| > 0 {
      FilterMatchingIsFilter(s[1..], needle);
      if Judge(s[0], needle).Some? {
        if exists i :: 0 <= i < |s[1..]| && Judge(s[1..][i], needle).None? {
          var i :| 0 <= i < |s[1..]| && Judge(s[1..][i], needle).None?;
          assert Judge(s[i + 1], needle).None?;
        } else {
          forall i | 0 <= i < |s|
            ensures Judge(s[i], needle).Some?
          {
            if i > 0 {
              assert s[i] == s[1..][i - 1];
            }
          }
        }
      }
    }
  }
}
