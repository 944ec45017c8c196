/**
 * The symbol table (symtab.c): a hash table keyed by identifier text whose
 * values are the resolved values of declarations.
 */
module SymbolTables {
  import opened Failures
  import opened Values

  class SymbolTable {
    /** ht_symbols: keyed by string content (g_str_hash, g_str_equal). */
    var symbols: map<string, VmValue>

    /** Every value is stored under its own identifier. */
    ghost predicate Valid()
      reads this
    {
      forall id :: id in symbols ==> symbols[id].identifier == id
    }

    /** symbol_table_create: an empty table. */
    constructor ()
      ensures Valid()
      ensures symbols == map[]
    {
      symbols := map[];
    }

    /**
     * symbol_table_put_value: binds the value under its own identifier,
     * replacing any earlier binding of that identifier and no other.
     */
    method PutValue(v: VmValue)
      requires Valid()
      modifies this
      ensures Valid()
      ensures symbols == old(symbols)[v.identifier := v]
      ensures v.identifier in symbols && symbols[v.identifier] == v
      ensures forall id :: id != v.identifier ==>
        (id in symbols <==> id in old(symbols)) && (id in symbols ==> symbols[id] == old(symbols)[id])
    {
      var identifier := v.identifier;
      symbols := symbols[identifier := v];
    }

    /** symbol_table_get_value: the bound value, or NULL (`None`) for an identifier never put. */
    method GetValue(identifier: string) returns (r: Option<VmValue>)
      requires Valid()
      ensures r.Some? <==> identifier in symbols
      ensures r.Some? ==> r.value == symbols[identifier] && r.value.identifier == identifier
    {
      if identifier in symbols {
        r := Some(symbols[identifier]);
      } else {
        r := None;
      }
    }
  }

  /**
   * What a caller of the table can rely on: a get right after a put returns
   * the value put, a later put of the same identifier overwrites it, a put
   * leaves other identifiers alone, and a fresh table knows no identifier.
   */
  method PutGetScenario(x: VmValue, y: VmValue, z: VmValue)
    requires x.identifier == "x" && y.identifier == "y" && z.identifier == "x"
  {
    var t := new SymbolTable();
    var r := t.GetValue("x");
    assert r == None;
    t.PutValue(x);
    r := t.GetValue("x");
    assert r == Some(x);
    t.PutValue(y);
    r := t.GetValue("x");
    assert r == Some(x);
    t.PutValue(z);
    r := t.GetValue("x");
    assert r == Some(z);
    r := t.GetValue("y");
    assert r == Some(y);
  }
}
