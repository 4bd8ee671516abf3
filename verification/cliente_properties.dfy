/** Properties relating several store operations: what a lookup sees after a create, an update or a
    delete, how duplicate ids behave, and the corner cases of the search. */
module ClienteProperties {
  import opened Wrappers
  import opened Seqs
  import opened Text
  import opened Records
  import opened ClienteService

  /** A freshly created record is found by its generated id, provided no stored record already has that
      id and the data does not supply an `id` of its own. */
  lemma CreateThenGet(slot: Slot, data: Record, newId: string, ts: string)
    requires NoMatch(Load(slot), newId)
    requires IdKey !in data
    ensures ObtenerClientePorId(CrearCliente(slot, data, newId, ts).slot, newId)
      == Some(CrearCliente(slot, data, newId, ts).cliente)
  {
  }

  /** Ids are not unique: when a stored record already has the id, a create does not change what the
      lookup returns; the earlier record keeps shadowing the new one. */
  lemma CreateKeepsEarlierMatch(slot: Slot, data: Record, newId: string, ts: string, id: string)
    requires !NoMatch(Load(slot), id)
    ensures ObtenerClientePorId(CrearCliente(slot, data, newId, ts).slot, id) == ObtenerClientePorId(slot, id)
  {
  }

  /** After a successful update that leaves `id` alone, the lookup returns the updated record. */
  lemma UpdateThenGet(slot: Slot, id: string, data: Record, ts: string)
    requires !NoMatch(Load(slot), id)
    requires IdKey !in data
    ensures ActualizarCliente(slot, id, data, ts).result.Success?
    ensures ObtenerClientePorId(ActualizarCliente(slot, id, data, ts).slot, id)
      == Some(ActualizarCliente(slot, id, data, ts).result.value)
  {
    var r := ActualizarCliente(slot, id, data, ts);
    var s := Load(slot);
    var i :| IsFirstMatch(s, id, i) && r.result.value == Patched(s[i], data, ts)
      && r.slot == Some(s[i := r.result.value]);
    var s' := Load(r.slot);
    assert IsFirstMatch(s', id, i);
    var after := ObtenerClientePorId(r.slot, id);
    var j :| IsFirstMatch(s', id, j) && after.value == s'[j];
    FirstMatchUnique(s', id, i, j);
  }

  /** Ids are not unique: an update changes only the first record with the id; a later record with
      the same id is left as it was. */
  lemma UpdateSkipsLaterDuplicates(slot: Slot, id: string, data: Record, ts: string, j: int)
    requires 0 <= j < |Load(slot)| && HasId(Load(slot)[j], id)
    requires exists k :: 0 <= k < j && HasId(Load(slot)[k], id)
    ensures ActualizarCliente(slot, id, data, ts).result.Success?
    ensures Load(ActualizarCliente(slot, id, data, ts).slot)[j] == Load(slot)[j]
  {
  }

  /** After a delete no record with the id is found, even when several had it. */
  lemma DeleteThenGet(slot: Slot, id: string)
    ensures ObtenerClientePorId(EliminarCliente(slot, id).slot, id).None?
  {
  }

  /** Deleting an id no record has leaves the collection as it was. */
  lemma DeleteAbsent(slot: Slot, id: string)
    requires NoMatch(Load(slot), id)
    ensures Load(EliminarCliente(slot, id).slot) == Load(slot)
  {
    FilterKeepsAll(Load(slot), (c: Record) => !HasId(c, id));
  }

  /** Deleting twice is deleting once. */
  lemma DeleteIdempotent(slot: Slot, id: string)
    ensures EliminarCliente(EliminarCliente(slot, id).slot, id) == EliminarCliente(slot, id)
  {
    var once := EliminarCliente(slot, id).slot;
    DeleteAbsent(once, id);
  }

  /** A delete does not change what a lookup of a different id returns. */
  lemma {:induction false} DeleteKeepsOtherLookups(s: Store, id: string, other: string)
    requires other != id
    ensures ObtenerClientePorId(EliminarCliente(Some(s), id).slot, other) == ObtenerClientePorId(Some(s), other)
  {
    var kept := WithoutId(s, id);
    if |s| > 0 {
      DeleteKeepsOtherLookups(s[1..], id, other);
      var rest := WithoutId(s[1..], id);
      if !HasId(s[0], id) {
        assert kept == [s[0]] + rest;
        assert kept[1..] == rest;
      }
    }
  }

  /** The search ignores the case of its term. */
  lemma SearchIgnoresCase(slot: Slot, termino: string)
    ensures BuscarClientes(slot, Lower(termino)) == BuscarClientes(slot, termino)
  {
    LowerIdempotent(termino);
  }

  /** With an empty term every record is returned, provided every record has a name; the name test
      already succeeds, so the surname and e-mail are never read. */
  lemma SearchEmptyTerm(slot: Slot)
    requires forall i :: 0 <= i < |Load(slot)| ==> IsText(Load(slot)[i], NameKey)
    ensures BuscarClientes(slot, "") == Success(Load(slot))
  {
    var s := Load(slot);
    assert Lower("") == "";
    forall i | 0 <= i < |s|
      ensures Judge(s[i], "") == Some(true)
    {
      IncludesEmpty(Lower(s[i][NameKey].text));
    }
    FilterMatchingIsFilter(s, "");
    FilterKeepsAll(s, KeepFor(""));
  }

  /** The search cannot fail when every record has a name, a surname and an e-mail. */
  lemma SearchTotal(slot: Slot, termino: string)
    requires forall i :: 0 <= i < |Load(slot)| ==>
      IsText(Load(slot)[i], NameKey) && IsText(Load(slot)[i], SurnameKey) && IsText(Load(slot)[i], EmailKey)
    ensures BuscarClientes(slot, termino).Success?
  {
  }

  /** A customer named Juan García is found by "gar" and by "GAR"; the name test fails, the surname
      test succeeds, so the missing e-mail is never read. */
  lemma SearchFindsSurname()
    ensures var juan := map[NameKey := Str("Juan"), SurnameKey := Str("García")];
      && BuscarClientes(Some([juan]), "gar") == Success([juan])
      && BuscarClientes(Some([juan]), "GAR") == Success([juan])
  {
    var juan := map[NameKey := Str("Juan"), SurnameKey := Str("García")];
    assert LowerChar('G') == 'g' && LowerChar('A') == 'a' && LowerChar('R') == 'r';
    assert Lower("gar") == "gar" by {
      assert |Lower("gar")| == 3;
      assert Lower("gar")[0] == 'g' && Lower("gar")[1] == 'a' && Lower("gar")[2] == 'r';
    }
    assert Lower("GAR") == "gar" by {
      assert |Lower("GAR")| == 3;
      assert Lower("GAR")[0] == 'g' && Lower("GAR")[1] == 'a' && Lower("GAR")[2] == 'r';
    }
    assert Lower("Juan") == "juan";
    assert Lower("García") == "garcía";
    assert "juan"[..3] != "gar" && "juan"[1..] == "uan";
    assert "uan"[..3][0] != "gar"[0] && "uan"[1..] == "an";
    assert !Includes("juan", "gar");
    assert "garcía"[..3] == "gar";
    assert Includes("garcía", "gar");
    var s: Store := [juan];
    assert s[1..] == [] && s[0] == juan;
    assert FilterMatching(s[1..], "gar") == Success([]);
    assert Judge(s[0], "gar") == Some(true);
    assert [s[0]] + [] == [juan];
    assert FilterMatching(s, "gar") == Success([juan]);
    assert BuscarClientes(Some([juan]), "gar") == FilterMatching([juan], Lower("gar"));
  }

  /** Starting from an absent slot: create a customer, update it, delete it, and the collection is
      empty again; between the steps the list holds exactly the one record. */
  lemma Lifecycle(data: Record, patch: Record, newId: string, t1: string, t2: string)
    requires IdKey !in data && IdKey !in patch
    ensures var created := CrearCliente(None, data, newId, t1);
      && ObtenerClientes(None) == []
      && ObtenerClientes(created.slot) == [created.cliente]
      && created.cliente[IdKey] == Str(newId)
      && created.cliente[CreatedKey] == Str(t1)
      && var updated := ActualizarCliente(created.slot, newId, patch, t2);
      && updated.result.Success?
      && ObtenerClientes(updated.slot) == [updated.result.value]
      && ObtenerClientes(EliminarCliente(updated.slot, newId).slot) == []
  {
  }
}
