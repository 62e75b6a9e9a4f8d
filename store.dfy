/** The content store `DataDict` of core/data_structure.py: a map from integer
    codes to fragment texts that answers "" for a code it does not hold, together
    with the members its callers use (`new_num`, `pop`, `update`, the saved flags
    and the macro table). */
module Store {

  type Code = int

  /** The text stored under `k`, or "" when there is none (`DataDict.__getitem__`). */
  function Lookup(texts: map<Code, string>, k: Code): string {
    if k in texts then texts[k] else ""
  }

  /** A value written under `k` is read back; every other key keeps its text. */
  lemma LookupAfterWrite(texts: map<Code, string>, k: Code, s: string, j: Code)
    ensures Lookup(texts[k := s], j) == if j == k then s else Lookup(texts, j)
  {
  }

  /** After a code is removed it reads "". */
  lemma LookupAfterRemove(texts: map<Code, string>, k: Code, j: Code)
    ensures Lookup(texts - {k}, j) == if j == k then "" else Lookup(texts, j)
  {
  }

  /** A code bigger than every key of `keys`, found by one pass over the keys. */
  method FreshCode(keys: set<Code>) returns (c: Code)
    ensures c !in keys
    ensures c >= 0
    ensures forall k :: k in keys ==> k < c
  {
    var rest := keys;
    c := 0;
    while rest != {}
      invariant rest <= keys
      invariant c >= 0
      invariant forall k :: k in keys && k !in rest ==> k < c
      decreases rest
    {
      assert (forall j :: j !in rest) ==> rest == {};
      var k :| k in rest;
      if c <= k {
        c := k + 1;
      }
      rest := rest - {k};
    }
  }

  class DataDict {
    /** The private dictionary of texts. */
    var texts: map<Code, string>
    /** The codes whose saved flag is false. */
    var unsaved: set<Code>
    /** Macro names bound to codes. */
    var macros: map<string, Code>

    /** A new store is empty. */
    constructor ()
      ensures texts == map[] && unsaved == {} && macros == map[]
      ensures forall k :: Get(k) == ""
    {
      texts := map[];
      unsaved := {};
      macros := map[];
    }

    /** `data[k]`. */
    function Get(k: Code): string
      reads this
    {
      Lookup(texts, k)
    }

    /** `data[k] = s`: writes the text only. */
    method Set(k: Code, s: string)
      modifies this
      ensures texts == old(texts)[k := s]
      ensures unsaved == old(unsaved) && macros == old(macros)
      ensures Get(k) == s
      ensures forall j :: j != k ==> Get(j) == old(Get(j))
    {
      texts := texts[k := s];
    }

    /** `data.clear()`: every code reads "" afterwards. */
    method Clear()
      modifies this
      ensures texts == map[]
      ensures unsaved == old(unsaved) && macros == old(macros)
      ensures forall j :: Get(j) == ""
    {
      texts := map[];
    }

    /** `data.update(m)`: the texts of `m` win over the stored ones. */
    method Update(m: map<Code, string>)
      modifies this
      ensures texts == old(texts) + m
      ensures unsaved == old(unsaved) && macros == old(macros)
      ensures forall j :: j in m ==> Get(j) == m[j]
      ensures forall j :: j !in m ==> Get(j) == old(Get(j))
    {
      texts := texts + m;
    }

    /** `data.new_num()`: a code no text is stored under; it is reserved with the
        empty text so that the next call returns another code. */
    method NewNum() returns (c: Code)
      modifies this
      ensures c !in old(texts)
      ensures texts == old(texts)[c := ""]
      ensures unsaved == old(unsaved) && macros == old(macros)
    {
      c := FreshCode(texts.Keys);
      texts := texts[c := ""];
    }

    /** `data.pop(k)`: the code's text, saved flag and macro names go away. */
    method Pop(k: Code)
      modifies this
      ensures texts == old(texts) - {k}
      ensures unsaved == old(unsaved) - {k}
      ensures macros == map n | n in old(macros) && old(macros)[n] != k :: old(macros)[n]
      ensures Get(k) == ""
    {
      texts := texts - {k};
      unsaved := unsaved - {k};
      macros := map n | n in macros && macros[n] != k :: macros[n];
    }

    /** `data.is_saved(k)`. */
    predicate IsSaved(k: Code)
      reads this
    {
      k !in unsaved
    }

    /** `data.set_saved(k, b)`. */
    method SetSaved(k: Code, b: bool)
      modifies this
      ensures unsaved == if b then old(unsaved) - {k} else old(unsaved) + {k}
      ensures texts == old(texts) && macros == old(macros)
      ensures IsSaved(k) == b
    {
      if b {
        unsaved := unsaved - {k};
      } else {
        unsaved := unsaved + {k};
      }
    }

    /** `data.save_all()`: every code is saved afterwards. */
    method SaveAll()
      modifies this
      ensures unsaved == {}
      ensures texts == old(texts) && macros == old(macros)
      ensures forall k :: IsSaved(k)
    {
      unsaved := {};
    }

    /** `data.add_macro(name, code)`. */
    method AddMacro(name: string, k: Code)
      modifies this
      ensures macros == old(macros)[name := k]
      ensures texts == old(texts) && unsaved == old(unsaved)
    {
      macros := macros[name := k];
    }
  }
}
