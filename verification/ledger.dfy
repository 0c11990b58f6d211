/** The ledger of native resources: what was acquired, which field answers for it now, and what
    was given back, in order. */
module Ledgers {
  import opened Common

  /** Handles are handed out in order of acquisition and never reused. */
  type Handle = nat

  /** What a handle names.  A stream SSL remembers the connection SSL it lives on; a peer address
      remembers which address candidate it was copied from. */
  datatype Kind =
    | ListenerSsl
    | ConnectionSsl
    | StreamSsl(parent: Handle)
    | SslCtx
    | Socket
    | AlpnBuffer
    | CallbackData
    | AddressList
    | PeerAddress(candidate: nat)

  datatype Class = ListenerClass | ConnectionClass | StreamClass | ResourceClass

  /** A PHP-visible object: its class and its number in the object store.  Numbers may be reused. */
  datatype Ref = Ref(cls: Class, id: nat)

  datatype Field = SslField | CtxField | FdField | AlpnField | DataField

  /** Who has to give a handle back: a C local variable, or a field of an object. */
  datatype Slot = Local | Member(obj: Ref, field: Field)

  datatype Ledger = Ledger(kinds: seq<Kind>, owner: map<Handle, Slot>, freed: seq<Handle>)

  const EMPTY_LEDGER := Ledger([], map[], [])

  function Acquire(led: Ledger, kind: Kind, slot: Slot): Ledger {
    Ledger(led.kinds + [kind], led.owner[|led.kinds| := slot], led.freed)
  }

  function Free(led: Ledger, h: Handle): Ledger {
    Ledger(led.kinds, led.owner - {h}, led.freed + [h])
  }

  function FreeAll(led: Ledger, hs: seq<Handle>): Ledger
    decreases |hs|
  {
    if hs == [] then led else FreeAll(Free(led, hs[0]), hs[1..])
  }

  /** Every handle ever acquired is either held by exactly one slot or was freed, and freed once. */
  ghost predicate Conserved(led: Ledger) {
    && Distinct(led.freed)
    && (forall h :: h in led.freed ==> h < |led.kinds|)
    && (forall h :: h in led.owner ==> h < |led.kinds|)
    && (forall h :: 0 <= h < |led.kinds| ==> (h in led.owner <==> h !in led.freed))
  }

  /** A connection SSL is freed only after every stream SSL that lives on it. */
  ghost predicate ChildrenFirst(led: Ledger) {
    forall h :: 0 <= h < |led.kinds| && led.kinds[h].StreamSsl? ==>
      && led.kinds[h].parent < h
      && led.kinds[led.kinds[h].parent] == ConnectionSsl
      && forall j :: 0 <= j < |led.freed| && led.freed[j] == led.kinds[h].parent ==> h in led.freed[..j]
  }

  /** No stream SSL on p is still held. */
  ghost predicate NoChildren(led: Ledger, p: Handle) {
    forall h :: h in led.owner && h < |led.kinds| && led.kinds[h].StreamSsl? ==> led.kinds[h].parent != p
  }

  lemma FreeKeepsConserved(led: Ledger, h: Handle)
    requires Conserved(led) && h in led.owner
    ensures Conserved(Free(led, h))
  {
  }

  lemma FreeKeepsChildrenFirst(led: Ledger, h: Handle)
    requires Conserved(led) && ChildrenFirst(led) && h in led.owner && NoChildren(led, h)
    ensures ChildrenFirst(Free(led, h))
  {
    var led' := Free(led, h);
    forall k | 0 <= k < |led'.kinds| && led'.kinds[k].StreamSsl?
      ensures forall j :: 0 <= j < |led'.freed| && led'.freed[j] == led'.kinds[k].parent ==> k in led'.freed[..j]
    {
      forall j | 0 <= j < |led'.freed| && led'.freed[j] == led'.kinds[k].parent
        ensures k in led'.freed[..j]
      {
        assert led'.freed[..j] == led.freed[..j];
        if j == |led.freed| {
          assert k !in led.owner;
          assert led.freed[..j] == led.freed;
        }
      }
    }
  }

  /** What FreeAll changes, for distinct handles. */
  lemma {:induction false} FreeAllEffect(led: Ledger, hs: seq<Handle>)
    ensures var led' := FreeAll(led, hs);
      led'.kinds == led.kinds && led'.freed == led.freed + hs && led'.owner == led.owner - (set h | h in hs)
    decreases |hs|
  {
    if hs == [] {
      assert led.owner - (set h | h in hs) == led.owner;
      assert led.freed + hs == led.freed;
    } else {
      FreeAllEffect(Free(led, hs[0]), hs[1..]);
      assert hs == [hs[0]] + hs[1..];
      assert (led.freed + [hs[0]]) + hs[1..] == led.freed + hs;
      assert (set h | h in hs) == {hs[0]} + (set h | h in hs[1..]);
      assert led.owner - {hs[0]} - (set h | h in hs[1..]) == led.owner - (set h | h in hs);
    }
  }

  /** Freeing distinct held handles that have no children keeps the ledger conserved and ordered. */
  lemma {:induction false} FreeAllKeeps(led: Ledger, hs: seq<Handle>)
    requires Conserved(led) && ChildrenFirst(led) && Distinct(hs)
    requires forall h :: h in hs ==> h in led.owner && NoChildren(led, h)
    ensures Conserved(FreeAll(led, hs)) && ChildrenFirst(FreeAll(led, hs))
    decreases |hs|
  {
    if hs != [] {
      var h0 := hs[0];
      assert h0 in hs;
      FreeKeepsConserved(led, h0);
      FreeKeepsChildrenFirst(led, h0);
      var next := Free(led, h0);
      forall h | h in hs[1..]
        ensures h in next.owner && NoChildren(next, h)
      {
        var i :| 1 <= i < |hs| && hs[i] == h;
        assert h in hs && h0 != h;
        assert NoChildren(led, h);
      }
      FreeAllKeeps(next, hs[1..]);
    }
  }

  /** Between led and led' some handles were acquired; each of them is now in kept or was freed
      exactly once, nothing older was touched, and no stream SSL was opened. */
  ghost predicate Balanced(led: Ledger, led': Ledger, kept: map<Handle, Slot>) {
    && led.kinds <= led'.kinds
    && led.freed <= led'.freed
    && led'.owner == led.owner + kept
    && (forall h :: h in kept ==> |led.kinds| <= h < |led'.kinds|)
    && Distinct(led'.freed[|led.freed|..])
    && (forall h :: h in led'.freed[|led.freed|..] ==> |led.kinds| <= h < |led'.kinds|)
    && (forall h :: |led.kinds| <= h < |led'.kinds| ==> (h in kept <==> h !in led'.freed[|led.freed|..]))
    && (forall h :: |led.kinds| <= h < |led'.kinds| ==> !led'.kinds[h].StreamSsl?)
  }

  lemma BalancedKeeps(led: Ledger, led': Ledger, kept: map<Handle, Slot>)
    requires Conserved(led) && ChildrenFirst(led) && Balanced(led, led', kept)
    ensures Conserved(led') && ChildrenFirst(led')
  {
    var more := led'.freed[|led.freed|..];
    assert led'.freed == led.freed + more;
    forall i, j | 0 <= i < j < |led'.freed|
      ensures led'.freed[i] != led'.freed[j]
    {
      if |led.freed| <= j {
        assert led'.freed[j] == more[j - |led.freed|];
        if |led.freed| <= i {
          assert led'.freed[i] == more[i - |led.freed|];
        } else {
          assert led'.freed[i] == led.freed[i] && led.freed[i] in led.freed;
          assert more[j - |led.freed|] in more;
        }
      }
    }
    forall h | 0 <= h < |led'.kinds|
      ensures h in led'.owner <==> h !in led'.freed
    {
      assert h in led'.freed <==> h in led.freed || h in more;
    }
    forall j | |led.freed| <= j < |led'.freed|
      ensures |led.kinds| <= led'.freed[j]
    {
      assert led'.freed[j] == more[j - |led.freed|] && more[j - |led.freed|] in more;
    }
    forall k | 0 <= k < |led'.kinds| && led'.kinds[k].StreamSsl?
      ensures && led'.kinds[k].parent < k && led'.kinds[led'.kinds[k].parent] == ConnectionSsl
              && forall j :: 0 <= j < |led'.freed| && led'.freed[j] == led'.kinds[k].parent ==> k in led'.freed[..j]
    {
      assert k < |led.kinds| && led'.kinds[k] == led.kinds[k];
      forall j | 0 <= j < |led'.freed| && led'.freed[j] == led'.kinds[k].parent
        ensures k in led'.freed[..j]
      {
        assert j < |led.freed|;
        assert led'.freed[..j] == led.freed[..j];
      }
    }
  }

  // Accounting for one native call at a time: kept is what the code running since led still owes.

  lemma NothingYet(led: Ledger)
    ensures Balanced(led, led, map[])
  {
  }

  lemma AcquireBalanced(led: Ledger, led': Ledger, kept: map<Handle, Slot>, kind: Kind)
    requires Conserved(led) && Balanced(led, led', kept) && !kind.StreamSsl?
    ensures Balanced(led, Acquire(led', kind, Local), kept[|led'.kinds| := Local])
  {
  }

  lemma FreeBalanced(led: Ledger, led': Ledger, kept: map<Handle, Slot>, h: Handle)
    requires Conserved(led) && Balanced(led, led', kept) && h in kept
    ensures Balanced(led, Free(led', h), kept - {h})
  {
    var more := led'.freed[|led.freed|..];
    assert Free(led', h).freed[|led.freed|..] == more + [h];
    assert led'.owner - {h} == led.owner + (kept - {h});
  }

  lemma MoveBalanced(led: Ledger, led': Ledger, kept: map<Handle, Slot>, h: Handle, slot: Slot)
    requires Balanced(led, led', kept) && h in kept
    ensures Balanced(led, Move(led', h, slot), kept[h := slot])
  {
  }

  /** The handle is answered for by another slot from now on. */
  function Move(led: Ledger, h: Handle, slot: Slot): Ledger {
    led.(owner := led.owner[h := slot])
  }

  /** The debts of a running constructor: its set locals, and the fields it has filled. */
  function Debts(locals: set<Handle>, fields: map<Handle, Slot>): map<Handle, Slot> {
    (map h | h in locals :: Local) + fields
  }

  lemma DebtsTaken(locals: set<Handle>, fields: map<Handle, Slot>, h: Handle)
    requires h !in fields
    ensures Debts(locals, fields)[h := Local] == Debts(locals + {h}, fields)
  {
  }

  lemma DebtsGiven(locals: set<Handle>, fields: map<Handle, Slot>, h: Handle)
    requires h !in fields
    ensures Debts(locals, fields) - {h} == Debts(locals - {h}, fields)
  {
  }

  lemma DebtsKept(locals: set<Handle>, fields: map<Handle, Slot>, h: Handle, slot: Slot)
    ensures Debts(locals, fields)[h := slot] == Debts(locals - {h}, fields[h := slot])
  {
  }

  /** What the code running since led answers for: its set locals and the fields it filled. */
  ghost predicate Owes(led: Ledger, led': Ledger, locals: set<Handle>, fields: map<Handle, Slot>) {
    Conserved(led) && locals !! fields.Keys && Balanced(led, led', Debts(locals, fields))
  }

  lemma OwesNothing(led: Ledger)
    requires Conserved(led)
    ensures Owes(led, led, {}, map[])
  {
  }

  lemma OwesTaken(led: Ledger, led': Ledger, locals: set<Handle>, fields: map<Handle, Slot>, kind: Kind)
    requires Owes(led, led', locals, fields) && !kind.StreamSsl?
    ensures Owes(led, Acquire(led', kind, Local), locals + {|led'.kinds|}, fields)
    ensures |led'.kinds| !in locals && |led'.kinds| !in fields
  {
    var h := |led'.kinds|;
    assert h !in Debts(locals, fields);
    AcquireBalanced(led, led', Debts(locals, fields), kind);
    DebtsTaken(locals, fields, h);
  }

  lemma OwesGiven(led: Ledger, led': Ledger, locals: set<Handle>, fields: map<Handle, Slot>, h: Handle)
    requires Owes(led, led', locals, fields) && h in locals
    ensures Owes(led, Free(led', h), locals - {h}, fields)
  {
    FreeBalanced(led, led', Debts(locals, fields), h);
    DebtsGiven(locals, fields, h);
  }

  lemma OwesKept(led: Ledger, led': Ledger, locals: set<Handle>, fields: map<Handle, Slot>, h: Handle, slot: Slot)
    requires Owes(led, led', locals, fields) && h in locals
    ensures Owes(led, Move(led', h, slot), locals - {h}, fields[h := slot])
  {
    MoveBalanced(led, led', Debts(locals, fields), h, slot);
    DebtsKept(locals, fields, h, slot);
  }

  /** With no local left, the debts are the filled fields. */
  lemma OwesFields(led: Ledger, led': Ledger, fields: map<Handle, Slot>)
    requires Owes(led, led', {}, fields)
    ensures Balanced(led, led', fields)
  {
  }
}
