/** luaL_ref and luaL_unref (src/lib_aux.c): references into a table whose released slots form
    a list through the slots themselves, headed by slot 0. */
module RefTable {
  datatype Value = Nil | Number(n: int) | Other(id: int)

  const LUA_REFNIL := -1

  type Table = map<int, Value>

  /** A raw read. */
  function At(t: Table, k: int): Value {
    if k in t then t[k] else Nil
  }

  /** `lua_tointeger`. */
  function ToInteger(v: Value): int {
    if v.Number? then v.n else 0
  }

  /** What `lua_objlen` may answer: when the table has holes, any of its borders. */
  predicate Border(t: Table, len: nat) {
    (len == 0 || At(t, len) != Nil) && At(t, len + 1) == Nil
  }

  /** Free slot `i` leads to the next one; the last one holds nil. */
  ghost predicate Cell(t: Table, free: seq<int>, i: int) {
    0 <= i < |free| ==> At(t, free[i]) == if i + 1 < |free| then Number(free[i + 1]) else Nil
  }

  ghost predicate Slot(t: Table, out: map<int, Value>, free: seq<int>, top: nat, k: int) {
    && (k in out ==> 1 <= k <= top && out[k] != Nil && At(t, k) == out[k] && k !in free)
    && (k in free ==> 1 <= k <= top) && (1 <= k <= top ==> k in out || k in free) && (k > top ==> At(t, k) == Nil)
  }

  ghost predicate NoRepeats(free: seq<int>) {
    forall i, j | 0 <= i < j < |free| :: free[i] != free[j]
  }

  /** The slots from 1 to `top` are the outstanding references with their values and the free
      slots, each once, which form a list from slot 0 on. */
  ghost predicate Ok(t: Table, out: map<int, Value>, free: seq<int>, top: nat) {
    && (forall k :: Slot(t, out, free, top, k)) && (forall i :: Cell(t, free, i)) && NoRepeats(free)
    && At(t, 0) == (if free == [] then Nil else Number(free[0]))
  }

  /** Without holes there is only one border. */
  lemma OnlyBorder(t: Table, out: map<int, Value>, top: nat, len: nat)
    requires Ok(t, out, [], top) && Border(t, len)
    ensures len == top
  {
    assert Slot(t, out, [], top, len) && Slot(t, out, [], top, len + 1);
  }

  /** The first free slot is taken. */
  lemma Popped(t: Table, out: map<int, Value>, free: seq<int>, top: nat, v: Value)
    requires Ok(t, out, free, top) && free != [] && v != Nil
    ensures Ok(t[0 := At(t, free[0])][free[0] := v], out[free[0] := v], free[1..], top)
  {
    var (ref, rest) := (free[0], free[1..]);
    var (t', out') := (t[0 := At(t, ref)][ref := v], out[ref := v]);
    assert free == [ref] + rest;
    assert Slot(t, out, free, top, ref) && Cell(t, free, 0);
    assert forall i | 0 <= i < |rest| :: rest[i] == free[i + 1];
    forall k ensures Slot(t', out', rest, top, k) { assert Slot(t, out, free, top, k); }
    forall i ensures Cell(t', rest, i) {
      assert Cell(t, free, i + 1);
      if 0 <= i < |rest| { assert rest[i] in free && Slot(t, out, free, top, rest[i]); }
    }
  }

  /** A slot behind all others is taken. */
  lemma Added(t: Table, out: map<int, Value>, top: nat, v: Value)
    requires Ok(t, out, [], top) && v != Nil
    ensures Ok(t[top + 1 := v], out[top + 1 := v], [], top + 1)
  {
    var (t', out', top') := (t[top + 1 := v], out[top + 1 := v], top + 1);
    forall k ensures Slot(t', out', [], top', k) { assert Slot(t, out, [], top, k); }
  }

  /** A slot is put at the head of the list. */
  lemma Pushed(t: Table, out: map<int, Value>, free: seq<int>, top: nat, ref: int)
    requires Ok(t, out, free, top) && ref in out
    ensures Ok(t[ref := At(t, 0)][0 := Number(ref)], out - {ref}, [ref] + free, top)
  {
    var (t', out', free') := (t[ref := At(t, 0)][0 := Number(ref)], out - {ref}, [ref] + free);
    assert Slot(t, out, free, top, ref);
    forall k ensures Slot(t', out', free', top, k) { assert Slot(t, out, free, top, k); }
    forall i ensures Cell(t', free', i) {
      assert Cell(t, free, i - 1);
      if 0 < i < |free'| { assert free[i - 1] in free && Slot(t, out, free, top, free[i - 1]); }
    }
  }

  class Refs {
    var t: Table
    ghost var out: map<int, Value>   // the outstanding references and their values
    ghost var free: seq<int>
    ghost var top: nat

    ghost predicate Valid()
      reads this
    {
      Ok(t, out, free, top)
    }

    constructor ()
      ensures Valid() && out == map[] && free == [] && top == 0
    {
      t, out, free, top := map[], map[], [], 0;
    }

    /** `luaL_ref`; the slot released last is taken first. `len` is what `lua_objlen` would answer. It answers with the border behind
        all references, since it is asked only when there are no holes. */
    method Ref(v: Value, len: nat) returns (ref: int)
      requires Valid() && Border(t, len)
      modifies this
      ensures Valid()
      ensures v == Nil ==> ref == LUA_REFNIL && out == old(out) && t == old(t) && free == old(free) && top == old(top)
      ensures v != Nil ==> ref > 0 && ref !in old(out) && out == old(out)[ref := v]
      ensures v != Nil ==>
        if old(free) != [] then ref == old(free)[0] && free == old(free)[1..] && top == old(top)
        else ref == old(top) + 1 == top && free == []
    {
      if v == Nil { return LUA_REFNIL; }
      ref := ToInteger(At(t, 0));
      HeadIs(t, out, free, top);
      if ref != 0 {
        Popped(t, out, free, top, v);
        t := t[0 := At(t, ref)];
        free := free[1..];
      } else {
        OnlyBorder(t, out, top, len);
        Added(t, out, top, v);
        ref := len + 1;
        top := top + 1;
      }
      t := t[ref := v];
      out := out[ref := v];
    }

    /** `luaL_unref`. */
    method Unref(ref: int)
      requires Valid() && (ref >= 0 ==> ref in out)
      modifies this
      ensures Valid() && out == (if ref >= 0 then old(out) - {ref} else old(out))
      ensures free == (if ref >= 0 then [ref] + old(free) else old(free)) && top == old(top)
    {
      if ref >= 0 {
        Pushed(t, out, free, top, ref);
        t := t[ref := At(t, 0)];
        t := t[0 := Number(ref)];
        free := [ref] + free;
        out := out - {ref};
      }
    }

    /** The value of an outstanding reference is where its holder looks for it. */
    lemma ValueKept(ref: int)
      requires Valid() && ref in out
      ensures At(t, ref) == out[ref] != Nil
    {
      assert Slot(t, out, free, top, ref);
    }
  }

  lemma HeadIs(t: Table, out: map<int, Value>, free: seq<int>, top: nat)
    requires Ok(t, out, free, top)
    ensures if free == [] then ToInteger(At(t, 0)) == 0 else ToInteger(At(t, 0)) == free[0] > 0 && free[0] !in out
    ensures top + 1 !in out
  {
    if free != [] { assert free[0] in free && Slot(t, out, free, top, free[0]); }
    assert Slot(t, out, free, top, top + 1);
  }
}
