/** The packed flag register against one byte per flag. */
module SimdPack {
  import opened SimdLayout

  // ---- words as bits, lowest first ----

  type Word = w: seq<bool> | |w| == 64 witness seq(64, _ => false)
  type Byte = b: seq<bool> | |b| == 8 witness seq(8, _ => false)

  const ZERO: Word := seq(64, _ => false)

  function AndW(a: Word, b: Word): Word { seq(64, i requires 0 <= i < 64 => a[i] && b[i]) }
  function OrW(a: Word, b: Word): Word { seq(64, i requires 0 <= i < 64 => a[i] || b[i]) }
  function NotW(a: Word): Word { seq(64, i requires 0 <= i < 64 => !a[i]) }
  function ShlW(a: Word, n: nat): Word { seq(64, i requires 0 <= i < 64 => i >= n && a[i - n]) }
  function ShrW(a: Word, n: nat): Word { seq(64, i requires 0 <= i < 64 => i + n < 64 && a[i + n]) }

  /** The mask of a slot: `bits` low ones. */
  function Mask(bits: nat): Word { seq(64, i requires 0 <= i < 64 => i < bits) }

  /** A byte loaded with zero extension. */
  function Movzx(b: Byte): Word { seq(64, i requires 0 <= i < 64 => i < 8 && b[i]) }

  function LowByte(a: Word): Byte { a[..8] }

  /** `bits` bits followed by zeros. */
  function Extend(f: seq<bool>): Word
    requires |f| <= 64
  {
    seq(64, i requires 0 <= i < 64 => i < |f| && f[i])
  }

  function Field(w: Word, s: Slot): seq<bool>
    requires s.start + s.bits <= 64
  {
    w[s.start..s.start + s.bits]
  }

  /** `w` with the low bits of `v` in the slot's place. */
  function Insert(w: Word, s: Slot, v: Word): Word
    requires s.start + s.bits <= 64
  {
    seq(64, i requires 0 <= i < 64 => if s.start <= i < s.start + s.bits then v[i - s.start] else w[i])
  }

  lemma InsertField(w: Word, s: Slot, v: Word, t: Slot)
    requires InRange(s) && InRange(t)
    ensures Field(Insert(w, s, v), s) == v[..s.bits]
    ensures Disjoint(s, t) ==> Field(Insert(w, s, v), t) == Field(w, t)
  {
    assert forall i :: 0 <= i < s.bits ==> Field(Insert(w, s, v), s)[i] == v[i];
    if Disjoint(s, t) {
      assert forall i :: 0 <= i < t.bits ==> Field(Insert(w, s, v), t)[i] == Field(w, t)[i];
    }
  }

  /** The emitted mask, shift and merge is an insertion. */
  lemma MergeIsInsert(w: Word, s: Slot, v: Word)
    requires InRange(s)
    ensures OrW(AndW(w, NotW(ShlW(Mask(s.bits), s.start))), ShlW(AndW(v, Mask(s.bits)), s.start)) == Insert(w, s, v)
  {
  }

  /** The emitted shift and mask is an extraction. */
  lemma ShiftIsField(w: Word, s: Slot)
    requires InRange(s)
    ensures AndW(ShrW(w, s.start), Mask(s.bits)) == Extend(Field(w, s))
  {
  }

  // ---- the machine ----

  /** The packed register, its memory mirror, and the flags' own bytes. */
  datatype Cpu = Cpu(pack: Word, store: Word, bytes: map<Name, Byte>)

  function ByteOf(c: Cpu, n: Name): Byte { if n in c.bytes then c.bytes[n] else seq(8, _ => false) }

  /** Slot `s` of `w` holds the flag's byte, masked to its width. */
  ghost predicate Mirrors(c: Cpu, w: Word, s: Slot)
    requires InRange(s)
  {
    Field(w, s) == ByteOf(c, s.name)[..s.bits]
  }

  ghost predicate AllMirrored(slots: map<Name, Slot>, c: Cpu, w: Word) {
    forall n :: n in slots ==> InRange(slots[n]) && Mirrors(c, w, slots[n])
  }

  /** The invariant: the register equals its mirror, and the mirror every byte. */
  ghost predicate Coherent(slots: map<Name, Slot>, c: Cpu) {
    c.pack == c.store && AllMirrored(slots, c, c.store)
  }

  function Written(c: Cpu, s: Slot, v: Word): Cpu
    requires s.start + s.bits <= 64
  {
    var w := Insert(c.pack, s, v);
    Cpu(w, w, c.bytes[s.name := LowByte(AndW(v, Mask(s.bits)))])
  }

  class Machine {
    var pack: Word
    var store: Word
    var bytes: map<Name, Byte>

    function State(): Cpu
      reads this
    {
      Cpu(pack, store, bytes)
    }

    constructor (c: Cpu)
      ensures State() == c
    {
      pack, store, bytes := c.pack, c.store, c.bytes;
    }

    /** Seed the register and the mirror from the flags' initial bytes. */
    method Startup(slots: map<Name, Slot>, order: seq<Name>, ghost next: nat)
      requires Packed(slots, order, next)
      modifies this`pack, this`store
      ensures Coherent(slots, State()) && bytes == old(bytes)
    {
      var acc := ZERO;
      ghost var c := State();
      for k := 0 to |order|
        invariant forall j :: 0 <= j < k ==> Mirrors(c, acc, slots[order[j]])
        invariant forall i :: 0 <= i < 64 && acc[i] ==> exists j :: 0 <= j < k && InSlot(slots[order[j]], i)
        invariant State() == c
      {
        var s := slots[order[k]];
        var tmp := Movzx(if s.name in bytes then bytes[s.name] else seq(8, _ => false));
        tmp := AndW(tmp, Mask(s.bits));
        if s.start != 0 {
          tmp := ShlW(tmp, s.start);
        } else {
          assert ShlW(tmp, 0) == tmp;
        }
        SeedOne(slots, order, next, c, acc, k);
        acc := OrW(acc, tmp);
      }
      pack := acc;
      store := pack;
      forall n | n in slots
        ensures InRange(slots[n]) && Mirrors(State(), store, slots[n])
      {
        var j :| 0 <= j < |order| && order[j] == n;
        assert Mirrors(c, acc, slots[order[j]]);
      }
    }

    /** Reload the register from the mirror. */
    method Refresh()
      modifies this`pack
      ensures State() == old(State()).(pack := old(store))
    {
      pack := store;
    }

    /** Extract a slot into a general register without touching memory. */
    method Read(s: Slot) returns (d: Word)
      requires InRange(s)
      ensures d == Extend(Field(pack, s))
    {
      d := pack;
      if s.start != 0 {
        d := ShrW(d, s.start);
      } else {
        assert ShrW(d, 0) == d;
      }
      d := AndW(d, Mask(s.bits));
      ShiftIsField(pack, s);
    }

    /** Write a value through to the byte, the register and the mirror. */
    method Write(s: Slot, value: Word)
      requires InRange(s)
      modifies this
      ensures State() == Written(old(State()), s, value)
    {
      var v := AndW(value, Mask(s.bits));
      bytes := bytes[s.name := LowByte(v)];
      var acc := pack;
      var msk := Mask(s.bits);
      if s.start != 0 {
        msk := ShlW(msk, s.start);
      } else {
        assert ShlW(msk, 0) == msk;
      }
      msk := NotW(msk);
      acc := AndW(acc, msk);
      if s.start != 0 {
        v := ShlW(v, s.start);
      } else {
        assert ShlW(v, 0) == v;
      }
      acc := OrW(acc, v);
      MergeIsInsert(pack, s, value);
      pack := acc;
      store := pack;
    }

    /** One event of a run. */
    method Perform(slots: map<Name, Slot>, e: Event)
      requires e.Put? ==> e.name in slots && InRange(slots[e.name])
      requires e.Get? ==> e.name in slots && InRange(slots[e.name])
      modifies this
      ensures State() == After(slots, old(State()), e)
    {
      match e {
        case Put(n, v) => Write(slots[n], v);
        case Get(n) => var _ := Read(slots[n]);
        case Clobber(junk) => pack := junk;
        case Reload => Refresh();
      }
    }
  }

  predicate InSlot(s: Slot, i: int) { s.start <= i < s.start + s.bits }

  /** OR-ing in one more flag leaves the earlier slots alone. */
  lemma SeedOne(slots: map<Name, Slot>, order: seq<Name>, next: nat, c: Cpu, acc: Word, k: nat)
    requires Packed(slots, order, next) && k < |order|
    requires forall j :: 0 <= j < k ==> Mirrors(c, acc, slots[order[j]])
    requires forall i :: 0 <= i < 64 && acc[i] ==> exists j :: 0 <= j < k && InSlot(slots[order[j]], i)
    ensures var s := slots[order[k]];
            var r := OrW(acc, ShlW(AndW(Movzx(ByteOf(c, s.name)), Mask(s.bits)), s.start));
            && (forall j :: 0 <= j < k + 1 ==> Mirrors(c, r, slots[order[j]]))
            && (forall i :: 0 <= i < 64 && r[i] ==> exists j :: 0 <= j < k + 1 && InSlot(slots[order[j]], i))
  {
    var s := slots[order[k]];
    var b := ByteOf(c, s.name);
    var r := OrW(acc, Placed(b, s));
    forall j | 0 <= j < k
      ensures Mirrors(c, r, slots[order[j]])
    {
      SlotsApart(slots, order, next, j, k);
      OtherSeed(acc, b, s, slots[order[j]]);
    }
    forall i | InSlot(s, i)
      ensures !acc[i]
    {
      if acc[i] {
        var j :| 0 <= j < k && InSlot(slots[order[j]], i);
        SlotsApart(slots, order, next, j, k);
        assert false;
      }
    }
    OwnSeed(acc, b, s);
    forall i | 0 <= i < 64 && r[i]
      ensures exists j :: 0 <= j < k + 1 && InSlot(slots[order[j]], i)
    {
      if !acc[i] {
        assert InSlot(slots[order[k]], i);
      }
    }
  }

  lemma SlotsApart(slots: map<Name, Slot>, order: seq<Name>, next: nat, j: nat, k: nat)
    requires Packed(slots, order, next) && j < k < |order|
    ensures Disjoint(slots[order[k]], slots[order[j]])
  {
  }

  /** A byte masked and shifted to its slot. */
  function Placed(b: Byte, s: Slot): Word { ShlW(AndW(Movzx(b), Mask(s.bits)), s.start) }

  lemma OtherSeed(acc: Word, b: Byte, s: Slot, o: Slot)
    requires InRange(s) && InRange(o) && Disjoint(s, o)
    ensures Field(OrW(acc, Placed(b, s)), o) == Field(acc, o)
  {
    var r := OrW(acc, Placed(b, s));
    assert forall i :: 0 <= i < o.bits ==> Field(r, o)[i] == Field(acc, o)[i];
  }

  lemma OwnSeed(acc: Word, b: Byte, s: Slot)
    requires InRange(s) && forall i :: InSlot(s, i) ==> !acc[i]
    ensures Field(OrW(acc, Placed(b, s)), s) == b[..s.bits]
  {
    var r := OrW(acc, Placed(b, s));
    forall i | 0 <= i < s.bits
      ensures Field(r, s)[i] == b[i]
    {
      assert InSlot(s, s.start + i);
    }
  }

  // ---- runs ----

  /** What can happen to the flags: a write, a read, a call that may leave anything
      in the register, a reload from the mirror. */
  datatype Event = Put(name: Name, value: Word) | Get(name: Name) | Clobber(junk: Word) | Reload

  function After(slots: map<Name, Slot>, c: Cpu, e: Event): Cpu {
    match e
    case Put(n, v) => if n in slots && slots[n].start + slots[n].bits <= 64 then Written(c, slots[n], v) else c
    case Get(_) => c
    case Clobber(junk) => c.(pack := junk)
    case Reload => c.(pack := c.store)
  }

  function AfterAll(slots: map<Name, Slot>, c: Cpu, es: seq<Event>): Cpu {
    if es == [] then c else After(slots, AfterAll(slots, c, es[..|es| - 1]), es[|es| - 1])
  }

  /** The register is stale from a call to the next reload; with one flag a write
      replaces all there is to know about and refreshes it too. */
  predicate Stale(slots: map<Name, Slot>, es: seq<Event>) {
    es != [] && (es[|es| - 1].Clobber? || (!Refreshing(slots, es[|es| - 1]) && Stale(slots, es[..|es| - 1])))
  }

  predicate Refreshing(slots: map<Name, Slot>, e: Event) { e.Reload? || (e.Put? && |slots| == 1) }

  /** Every flag named has a slot. */
  ghost predicate Named(slots: map<Name, Slot>, es: seq<Event>) {
    forall k :: 0 <= k < |es| && (es[k].Put? || es[k].Get?) ==> es[k].name in slots
  }

  /** Event `k` may use the register as the events before it left it. */
  predicate UsesFresh(slots: map<Name, Slot>, es: seq<Event>, k: nat) {
    k < |es| && (es[k].Get? || (es[k].Put? && !Refreshing(slots, es[k]))) ==> !Stale(slots, es[..k])
  }

  /** No flag is read after a call, and none of several is written, before a reload:
      the words that calls leave in the register play no part in it. */
  ghost predicate Fresh(slots: map<Name, Slot>, es: seq<Event>) {
    forall k: nat :: UsesFresh(slots, es, k)
  }

  lemma PrefixIsFresh(slots: map<Name, Slot>, es: seq<Event>, n: nat)
    requires Named(slots, es) && n <= |es|
    ensures Named(slots, es[..n])
    ensures Fresh(slots, es) ==> Fresh(slots, es[..n])
  {
    if Fresh(slots, es) {
      forall k: nat
        ensures UsesFresh(slots, es[..n], k)
      {
        if k < n {
          assert UsesFresh(slots, es, k) && es[..n][..k] == es[..k];
        }
      }
    }
  }

  /** One byte per flag, and nothing else. */
  function Bytes(slots: map<Name, Slot>, bytes: map<Name, seq<bool>>, es: seq<Event>): map<Name, seq<bool>> {
    if es == [] then bytes
    else
      var before := Bytes(slots, bytes, es[..|es| - 1]);
      match es[|es| - 1]
      case Put(n, v) => if n in slots && slots[n].bits <= 64 then before[n := v[..slots[n].bits]] else before
      case _ => before
  }

  /** Each flag's byte holds the flag's value in its low bits, and each slot of the
      mirror too; the register does as well unless a call has spoilt it. */
  ghost predicate Refines(slots: map<Name, Slot>, c: Cpu, flags: map<Name, seq<bool>>, stale: bool) {
    && AllMirrored(slots, c, c.store) && (!stale ==> c.pack == c.store)
    && forall n :: n in slots ==> n in flags && ByteOf(c, n)[..slots[n].bits] == flags[n]
  }

  lemma WriteRefines(slots: map<Name, Slot>, order: seq<Name>, next: nat, c: Cpu, flags: map<Name, seq<bool>>, n: Name, v: Word)
    requires Packed(slots, order, next) && Refines(slots, c, flags, false) && n in slots
    ensures Refines(slots, Written(c, slots[n], v), flags[n := v[..slots[n].bits]], false)
  {
    var s := slots[n];
    var r := Written(c, s, v);
    assert ByteOf(r, n)[..s.bits] == v[..s.bits];
    forall m | m in slots
      ensures InRange(slots[m]) && Mirrors(r, r.store, slots[m])
    {
      InsertField(c.pack, s, v, slots[m]);
    }
  }

  lemma LoneSlot(slots: map<Name, Slot>, n: Name, m: Name)
    requires |slots| == 1 && n in slots && m in slots
    ensures n == m
  {
    assert |slots.Keys - {n}| == 0;
    assert m !in slots.Keys - {n};
  }

  /** A write to the only flag there is, whatever the register held. */
  lemma LoneWriteRefines(slots: map<Name, Slot>, order: seq<Name>, next: nat, c: Cpu, flags: map<Name, seq<bool>>, n: Name, v: Word, stale: bool)
    requires Packed(slots, order, next) && Refines(slots, c, flags, stale) && n in slots && |slots| == 1
    ensures Refines(slots, Written(c, slots[n], v), flags[n := v[..slots[n].bits]], false)
  {
    var s := slots[n];
    var r := Written(c, s, v);
    assert ByteOf(r, n)[..s.bits] == v[..s.bits];
    forall m | m in slots
      ensures m == n && InRange(slots[m]) && Mirrors(r, r.store, slots[m])
    {
      LoneSlot(slots, n, m);
      InsertField(c.pack, s, v, s);
    }
  }

  /** After the start-up code and any run in which calls are followed by a reload
      before the flags are used again, the register equals the mirror and every
      slot its flag. */
  lemma {:induction false} RunRefines(slots: map<Name, Slot>, order: seq<Name>, next: nat, c: Cpu, flags: map<Name, seq<bool>>, es: seq<Event>)
    requires Packed(slots, order, next) && Refines(slots, c, flags, false) && Named(slots, es) && Fresh(slots, es)
    ensures Refines(slots, AfterAll(slots, c, es), Bytes(slots, flags, es), Stale(slots, es))
    decreases |es|
  {
    if es != [] {
      var n := |es| - 1;
      var before := es[..n];
      PrefixIsFresh(slots, es, n);
      RunRefines(slots, order, next, c, flags, before);
      assert UsesFresh(slots, es, n);
      if es[n].Put? {
        if |slots| == 1 {
          LoneWriteRefines(slots, order, next, AfterAll(slots, c, before), Bytes(slots, flags, before), es[n].name, es[n].value, Stale(slots, before));
        } else {
          WriteRefines(slots, order, next, AfterAll(slots, c, before), Bytes(slots, flags, before), es[n].name, es[n].value);
        }
      }
    }
  }

  /** A read from the register gives the flag's value, as a byte masked to its width. */
  lemma ReadIsFlag(slots: map<Name, Slot>, order: seq<Name>, next: nat, c: Cpu, flags: map<Name, seq<bool>>, es: seq<Event>, n: Name)
    requires Packed(slots, order, next) && Refines(slots, c, flags, false)
    requires Named(slots, es) && Fresh(slots, es) && !Stale(slots, es) && n in slots
    ensures var r := AfterAll(slots, c, es);
            Extend(Field(r.pack, slots[n])) == AndW(Movzx(ByteOf(r, n)), Mask(slots[n].bits))
            && n in Bytes(slots, flags, es) && Field(r.pack, slots[n]) == Bytes(slots, flags, es)[n]
  {
    RunRefines(slots, order, next, c, flags, es);
    var r, s := AfterAll(slots, c, es), slots[n];
    assert Mirrors(r, r.store, s);
    assert Extend(ByteOf(r, n)[..s.bits]) == AndW(Movzx(ByteOf(r, n)), Mask(s.bits));
  }

  /** Writing one flag leaves every other slot, byte and mirror alone. */
  lemma WriteIsLocal(slots: map<Name, Slot>, order: seq<Name>, next: nat, c: Cpu, n: Name, v: Word, m: Name)
    requires Packed(slots, order, next) && n in slots && m in slots && m != n && c.pack == c.store
    ensures var r := Written(c, slots[n], v);
            && Field(r.pack, slots[m]) == Field(c.pack, slots[m]) && Field(r.store, slots[m]) == Field(c.store, slots[m])
            && ByteOf(r, m) == ByteOf(c, m)
  {
    InsertField(c.pack, slots[n], v, slots[m]);
  }

  /** A write while the register is stale: the mirror stays right exactly if the
      register happens to agree with the bytes in every other slot. */
  lemma StaleWrite(slots: map<Name, Slot>, order: seq<Name>, next: nat, c: Cpu, n: Name, v: Word)
    requires Packed(slots, order, next) && n in slots
    ensures AllMirrored(slots, Written(c, slots[n], v), Written(c, slots[n], v).store)
            <==> forall m :: m in slots && m != n ==> Mirrors(c, c.pack, slots[m])
  {
    var s, r := slots[n], Written(c, slots[n], v);
    assert ByteOf(r, n)[..s.bits] == v[..s.bits];
    forall m | m in slots
      ensures m == n ==> Mirrors(r, r.store, slots[m])
      ensures m != n ==> (Mirrors(r, r.store, slots[m]) <==> Mirrors(c, c.pack, slots[m]))
    {
      InsertField(c.pack, s, v, slots[m]);
    }
  }

  // ---- exactly which runs are right, whatever calls leave in the register ----

  /** `fs` is `es` with other words left by the calls. */
  ghost predicate SameButJunk(es: seq<Event>, fs: seq<Event>) {
    |es| == |fs| && forall k :: 0 <= k < |es| ==> if es[k].Clobber? then fs[k].Clobber? else fs[k] == es[k]
  }

  /** After the first `k` events the mirror holds every flag's byte, and if a read
      comes next it finds the flag's value. */
  ghost predicate RightAt(slots: map<Name, Slot>, c: Cpu, flags: map<Name, seq<bool>>, fs: seq<Event>, k: nat) {
    k <= |fs| ==>
      var r := AfterAll(slots, c, fs[..k]);
      && AllMirrored(slots, r, r.store)
      && (k < |fs| && fs[k].Get? ==> ReadsFlag(slots, r, Bytes(slots, flags, fs[..k]), fs[k].name))
  }

  ghost predicate ReadsFlag(slots: map<Name, Slot>, r: Cpu, flags: map<Name, seq<bool>>, n: Name) {
    n in slots && n in flags && InRange(slots[n]) && Field(r.pack, slots[n]) == flags[n]
  }

  ghost predicate RightThroughout(slots: map<Name, Slot>, c: Cpu, flags: map<Name, seq<bool>>, fs: seq<Event>) {
    forall k: nat :: RightAt(slots, c, flags, fs, k)
  }

  /** Whatever words the calls leave, the run is right throughout. */
  ghost predicate RightForAnyJunk(slots: map<Name, Slot>, c: Cpu, flags: map<Name, seq<bool>>, es: seq<Event>) {
    forall fs :: SameButJunk(es, fs) ==> RightThroughout(slots, c, flags, fs)
  }

  /** Freshness is blind to what the calls leave. */
  lemma {:induction false} StaleIgnoresJunk(slots: map<Name, Slot>, es: seq<Event>, fs: seq<Event>)
    requires SameButJunk(es, fs)
    ensures Stale(slots, es) == Stale(slots, fs)
    decreases |es|
  {
    if es != [] {
      var n := |es| - 1;
      assert es[n].Clobber? || fs[n] == es[n];
      StaleIgnoresJunk(slots, es[..n], fs[..n]);
    }
  }

  lemma FreshIgnoresJunk(slots: map<Name, Slot>, es: seq<Event>, fs: seq<Event>)
    requires SameButJunk(es, fs) && Named(slots, es) && Fresh(slots, es)
    ensures Named(slots, fs) && Fresh(slots, fs)
  {
    forall k: nat
      ensures UsesFresh(slots, fs, k)
    {
      if k < |fs| {
        assert UsesFresh(slots, es, k);
        assert es[k].Clobber? || fs[k] == es[k];
        StaleIgnoresJunk(slots, es[..k], fs[..k]);
      }
    }
  }

  lemma FreshIsRight(slots: map<Name, Slot>, order: seq<Name>, next: nat, c: Cpu, flags: map<Name, seq<bool>>, fs: seq<Event>)
    requires Packed(slots, order, next) && Refines(slots, c, flags, false) && Named(slots, fs) && Fresh(slots, fs)
    ensures RightThroughout(slots, c, flags, fs)
  {
    forall k: nat
      ensures RightAt(slots, c, flags, fs, k)
    {
      if k <= |fs| {
        PrefixIsFresh(slots, fs, k);
        RunRefines(slots, order, next, c, flags, fs[..k]);
        assert UsesFresh(slots, fs, k);
        if k < |fs| && fs[k].Get? {
          ReadIsFlag(slots, order, next, c, flags, fs[..k], fs[k].name);
        }
      }
    }
  }

  /** The first use of a stale register comes directly behind a call. */
  lemma {:induction false} FirstStaleUse(slots: map<Name, Slot>, es: seq<Event>) returns (k: nat)
    requires !Fresh(slots, es)
    ensures 0 < k < |es| && !UsesFresh(slots, es, k) && es[k - 1].Clobber? && Fresh(slots, es[..k])
    decreases |es|
  {
    var n := |es| - 1;
    k :| !UsesFresh(slots, es, k);
    if !Fresh(slots, es[..k]) {
      var j := FirstStaleUse(slots, es[..k]);
      assert es[..k][..j] == es[..j];
      k := j;
    } else {
      StaleSince(slots, es, k);
    }
  }

  lemma StaleSince(slots: map<Name, Slot>, es: seq<Event>, k: nat)
    requires k < |es| && !UsesFresh(slots, es, k) && Fresh(slots, es[..k])
    ensures k > 0 && es[k - 1].Clobber?
  {
    var before := es[..k];
    assert Stale(slots, before);
    assert before[k - 1] == es[k - 1];
    assert UsesFresh(slots, before, k - 1);
  }

  /** A word that disagrees with the mirror in every slot. */
  lemma ComplementDiffers(w: Word, s: Slot)
    requires InRange(s)
    ensures Field(NotW(w), s) != Field(w, s)
  {
    assert Field(NotW(w), s)[0] != Field(w, s)[0];
  }

  lemma OtherName(slots: map<Name, Slot>, n: Name) returns (m: Name)
    requires n in slots && |slots| != 1
    ensures m in slots && m != n
  {
    assert |slots.Keys - {n}| == |slots| - 1 && slots.Keys - {n} != {};
    m :| m in slots.Keys - {n};
  }

  /** A use of the register directly behind a call goes wrong if the call leaves the
      complement of the mirror. */
  lemma JunkSpoils(slots: map<Name, Slot>, order: seq<Name>, next: nat, c: Cpu, flags: map<Name, seq<bool>>, es: seq<Event>, k: nat)
    requires Packed(slots, order, next) && Refines(slots, c, flags, false) && Named(slots, es)
    requires 0 < k < |es| && !UsesFresh(slots, es, k) && es[k - 1].Clobber? && Fresh(slots, es[..k])
    ensures var c1 := AfterAll(slots, c, es[..k - 1]);
            var fs := es[k - 1 := Clobber(NotW(c1.store))];
            SameButJunk(es, fs) && !(RightAt(slots, c, flags, fs, k) && RightAt(slots, c, flags, fs, k + 1))
  {
    var before := es[..k - 1];
    assert es[..k][..k - 1] == before;
    PrefixIsFresh(slots, es[..k], k - 1) by { PrefixIsFresh(slots, es, k); }
    RunRefines(slots, order, next, c, flags, before);
    var c1, f1 := AfterAll(slots, c, before), Bytes(slots, flags, before);
    var junk := NotW(c1.store);
    var fs := es[k - 1 := Clobber(junk)];
    var c2 := c1.(pack := junk);
    assert fs[..k][..k - 1] == before && fs[..k][k - 1] == Clobber(junk);
    assert AfterAll(slots, c, fs[..k]) == c2 && Bytes(slots, flags, fs[..k]) == f1;
    assert fs[k] == es[k];
    if es[k].Get? {
      JunkRead(slots, c1, f1, es[k].name);
    } else {
      JunkWritten(slots, order, next, c1, f1, es[k].name, es[k].value);
      assert fs[..k + 1][..k] == fs[..k] && fs[..k + 1][k] == es[k];
      assert AfterAll(slots, c, fs[..k + 1]) == Written(c2, slots[es[k].name], es[k].value);
    }
  }

  lemma JunkRead(slots: map<Name, Slot>, c: Cpu, flags: map<Name, seq<bool>>, n: Name)
    requires Refines(slots, c, flags, true) && n in slots && slots[n].name == n
    ensures !ReadsFlag(slots, c.(pack := NotW(c.store)), flags, n)
  {
    assert Mirrors(c, c.store, slots[n]);
    ComplementDiffers(c.store, slots[n]);
  }

  lemma JunkWritten(slots: map<Name, Slot>, order: seq<Name>, next: nat, c: Cpu, flags: map<Name, seq<bool>>, n: Name, v: Word)
    requires Packed(slots, order, next) && Refines(slots, c, flags, true) && n in slots && |slots| != 1
    ensures var r := Written(c.(pack := NotW(c.store)), slots[n], v); !AllMirrored(slots, r, r.store)
  {
    var d := c.(pack := NotW(c.store));
    var m := OtherName(slots, n);
    assert Mirrors(c, c.store, slots[m]);
    ComplementDiffers(c.store, slots[m]);
    assert !Mirrors(d, d.pack, slots[m]);
    StaleWrite(slots, order, next, d, n, v);
  }

  /** A run is right for every word its calls may leave in the register if and only
      if it is fresh: after a call no flag is read, and none of several is
      written, before the register is reloaded. */
  lemma FreshIsExact(slots: map<Name, Slot>, order: seq<Name>, next: nat, c: Cpu, flags: map<Name, seq<bool>>, es: seq<Event>)
    requires Packed(slots, order, next) && Refines(slots, c, flags, false) && Named(slots, es)
    ensures RightForAnyJunk(slots, c, flags, es) <==> Fresh(slots, es)
  {
    if Fresh(slots, es) {
      forall fs | SameButJunk(es, fs)
        ensures RightThroughout(slots, c, flags, fs)
      {
        FreshIgnoresJunk(slots, es, fs);
        FreshIsRight(slots, order, next, c, flags, fs);
      }
    } else {
      var k := FirstStaleUse(slots, es);
      JunkSpoils(slots, order, next, c, flags, es, k);
      var fs := es[k - 1 := Clobber(NotW(AfterAll(slots, c, es[..k - 1]).store))];
      assert SameButJunk(es, fs) && !RightThroughout(slots, c, flags, fs);
    }
  }

  /** Two one-bit flags, a call, then a write without a reload: the mirror loses the
      flag that was not written. */
  lemma StaleWriteLoses()
    ensures var slots := map["a_1bit" := Slot("a_1bit", 0, 1), "b_1bit" := Slot("b_1bit", 1, 1)];
            var on: Byte := seq(8, i => i == 0);
            var word: Word := seq(64, i => i < 2);
            var c := Cpu(word, word, map["a_1bit" := on, "b_1bit" := on]);
            && Coherent(slots, c)
            && !AllMirrored(slots, AfterAll(slots, c, [Clobber(ZERO), Put("a_1bit", word)]), AfterAll(slots, c, [Clobber(ZERO), Put("a_1bit", word)]).store)
  {
    var a, b := Slot("a_1bit", 0, 1), Slot("b_1bit", 1, 1);
    var slots := map["a_1bit" := a, "b_1bit" := b];
    var on: Byte := seq(8, i => i == 0);
    var word: Word := seq(64, i => i < 2);
    var c := Cpu(word, word, map["a_1bit" := on, "b_1bit" := on]);
    assert Field(word, a)[0] && Field(word, b)[0] && on[..1][0];
    assert Mirrors(c, word, a) && Mirrors(c, word, b);
    var es := [Clobber(ZERO), Put("a_1bit", word)];
    var c1 := c.(pack := ZERO);
    assert es[..1] == [Clobber(ZERO)] && [Clobber(ZERO)][..0] == [];
    assert AfterAll(slots, c, [Clobber(ZERO)]) == c1;
    var c2 := Written(c1, a, word);
    assert AfterAll(slots, c, es) == c2;
    assert "a_1bit"[0] != "b_1bit"[0];
    assert !Field(c2.store, b)[0] && ByteOf(c2, "b_1bit")[..1][0];
    assert !Mirrors(c2, c2.store, b) && slots["b_1bit"] == b;
  }
}
