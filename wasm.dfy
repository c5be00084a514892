/**
 * The `wasm_utils` WebAssembly instance as the playground's host code sees it:
 * a linear memory, the regions its allocator has handed out, and the one
 * "last translated result" slot read by `getTranslatedPointer`. What the
 * module's translator computes is an unspecified function of the target tag and the
 * input bytes; where its allocator places a region is any free gap that fits.
 * The ghost `trace` records every export call and every host access to the
 * memory, in order.
 */
module Wasm {

  /** Addresses of a 32-bit WebAssembly memory are u32 offsets. */
  const MaxMemory: nat := 0x1_0000_0000

  /** A negative i32 status of the translate export. */
  type ErrorCode = c: int | -0x8000_0000 <= c < 0 witness -1

  /** A leased byte range `[ptr, ptr + len)` of linear memory. */
  datatype Region = Region(ptr: nat, len: nat)

  /** `r` lies inside a memory of `size` bytes. */
  predicate Within(r: Region, size: nat) {
    r.ptr + r.len <= size
  }

  /** `a` and `b` share no byte. */
  predicate Disjoint(a: Region, b: Region) {
    a.ptr + a.len <= b.ptr || b.ptr + b.len <= a.ptr
  }

  /** `r` shares no byte with any live region. */
  predicate Unclaimed(r: Region, live: multiset<Region>) {
    forall s | s in live :: Disjoint(r, s)
  }

  /** What the module's translator makes of an input: output bytes, a failure code, or a trap. */
  datatype Translation = Output(bytes: seq<bv8>) | Failure(code: ErrorCode) | Panic

  /** `translate` traps on `t`: the translator panicked, or no gap clear of `live` in a memory of `size` bytes fits its output. */
  predicate Traps(t: Translation, size: nat, live: multiset<Region>) {
    t.Panic? || (t.Output? && forall p: nat | p + |t.bytes| <= size :: !Unclaimed(Region(p, |t.bytes|), live))
  }

  /** One interaction with the instance. */
  datatype Event =
    | CallAlloc(len: nat, ptr: nat)
    | AllocTrapped(len: nat)
    | WriteSource(ptr: nat, count: nat)
    | CallTranslate(target: int, ptr: nat, len: nat, status: int)
    | TranslateTrapped(target: int, ptr: nat, len: nat)
    | CallGetTranslatedPointer(ptr: nat)
    | ReadPayload(ptr: nat, len: nat)
    | CallFree(ptr: nat, len: nat)

  /** The memory `m` after `bytes` are stored from offset `p` on. */
  function Overwrite(m: seq<bv8>, p: nat, bytes: seq<bv8>): (r: seq<bv8>)
    requires p + |bytes| <= |m|
    ensures |r| == |m|
    ensures r[p..p + |bytes|] == bytes
  {
    m[..p] + bytes + m[p + |bytes|..]
  }

  /** A store changes no byte outside the stored range. */
  lemma OverwriteOutside(m: seq<bv8>, p: nat, bytes: seq<bv8>)
    requires p + |bytes| <= |m|
    ensures forall i | 0 <= i < |m| && !(p <= i < p + |bytes|) :: Overwrite(m, p, bytes)[i] == m[i]
  {
    var r := Overwrite(m, p, bytes);
    forall i | 0 <= i < |m| && !(p <= i < p + |bytes|) ensures r[i] == m[i] {
      if i < p {
        assert r[i] == m[..p][i];
      } else {
        assert r[i] == m[p + |bytes|..][i - p - |bytes|];
      }
    }
  }

  /** A store leaves every region it does not touch as it was. */
  lemma OverwriteElsewhere(m: seq<bv8>, p: nat, bytes: seq<bv8>, r: Region)
    requires p + |bytes| <= |m| && Within(r, |m|)
    requires Disjoint(Region(p, |bytes|), r)
    ensures Overwrite(m, p, bytes)[r.ptr..r.ptr + r.len] == m[r.ptr..r.ptr + r.len]
  {
    var after := Overwrite(m, p, bytes);
    OverwriteOutside(m, p, bytes);
    assert forall i | r.ptr <= i < r.ptr + r.len :: after[i] == m[i];
  }

  class Instance {
    /** `memory.buffer`. */
    var memory: array<bv8>
    /** Regions handed out by the allocator and not yet freed. */
    var live: multiset<Region>
    /** What `getTranslatedPointer` returns: where the last translation was placed. */
    var translatedPtr: nat
    /** The module's translator. */
    const translator: (int, seq<bv8>) -> Translation
    ghost var trace: seq<Event>

    /**
     * Every lease lies in memory and no two distinct leases overlap. The ledger is
     * a multiset because `alloc(0)` may hand out the same empty region more than
     * once; a non-empty region is leased at most once.
     */
    ghost predicate Valid()
      reads this`memory, this`live
    {
      memory.Length <= MaxMemory &&
      (forall r | r in live :: Within(r, memory.Length)) &&
      (forall r, s | r in live && s in live && r != s :: Disjoint(r, s)) &&
      (forall r | r in live && 0 < r.len :: live[r] == 1)
    }

    constructor (size: nat, translator: (int, seq<bv8>) -> Translation)
      requires size <= MaxMemory
      ensures Valid() && fresh(memory) && memory.Length == size
      ensures live == multiset{} && this.translator == translator && trace == []
    {
      memory := new bv8[size];
      live := multiset{};
      translatedPtr := 0;
      this.translator := translator;
      trace := [];
    }

    /** The bytes of region `r`. */
    ghost function Bytes(r: Region): seq<bv8>
      reads this`memory, memory
      requires Within(r, memory.Length)
    {
      memory[r.ptr..r.ptr + r.len]
    }

    /** The allocator's choice: a free gap of `len` bytes, or none when no gap fits. */
    method Place(len: nat) returns (ok: bool, ptr: nat)
      requires Valid()
      ensures ok ==> Within(Region(ptr, len), memory.Length) && Unclaimed(Region(ptr, len), live)
      ensures !ok ==> forall p: nat | p + len <= memory.Length :: !Unclaimed(Region(p, len), live)
    {
      if p: nat :| p <= memory.Length - len && Unclaimed(Region(p, len), live) {
        ok, ptr := true, p;
      } else {
        ok, ptr := false, 0;
      }
    }

    /** Adds a region the allocator chose to the ledger. */
    method Lease(r: Region)
      requires Valid() && Within(r, memory.Length) && Unclaimed(r, live)
      modifies this`live
      ensures Valid() && live == old(live) + multiset{r}
    {
      live := live + multiset{r};
    }

    /** The `alloc` export; a trap when no gap fits. */
    method Alloc(len: nat) returns (ok: bool, ptr: nat)
      requires Valid()
      modifies this
      ensures Valid() && memory == old(memory) && memory[..] == old(memory[..])
      ensures translatedPtr == old(translatedPtr)
      ensures ok ==> Within(Region(ptr, len), memory.Length) && Unclaimed(Region(ptr, len), old(live))
      ensures ok ==> live == old(live) + multiset{Region(ptr, len)}
      ensures ok ==> trace == old(trace) + [CallAlloc(len, ptr)]
      ensures !ok ==> forall p: nat | p + len <= memory.Length :: !Unclaimed(Region(p, len), live)
      ensures !ok ==> live == old(live) && trace == old(trace) + [AllocTrapped(len)]
    {
      ok, ptr := Place(len);
      if ok {
        Lease(Region(ptr, len));
        trace := trace + [CallAlloc(len, ptr)];
      } else {
        trace := trace + [AllocTrapped(len)];
      }
    }

    /** The `free` export; the module demands a region it handed out, with its length. */
    method Free(ptr: nat, len: nat)
      requires Valid() && Region(ptr, len) in live
      modifies this
      ensures Valid() && memory == old(memory) && memory[..] == old(memory[..])
      ensures translatedPtr == old(translatedPtr)
      ensures live == old(live) - multiset{Region(ptr, len)}
      ensures trace == old(trace) + [CallFree(ptr, len)]
    {
      live := live - multiset{Region(ptr, len)};
      trace := trace + [CallFree(ptr, len)];
    }

    /** Stores `bytes` from offset `ptr` on. */
    method Store(ptr: nat, bytes: seq<bv8>)
      requires ptr + |bytes| <= memory.Length
      modifies memory
      ensures memory[..] == Overwrite(old(memory[..]), ptr, bytes)
    {
      forall i | 0 <= i < |bytes| {
        memory[ptr + i] := bytes[i];
      }
      OverwriteOutside(old(memory[..]), ptr, bytes);
      assert forall i | 0 <= i < memory.Length :: memory[..][i] == Overwrite(old(memory[..]), ptr, bytes)[i];
    }

    /** The module's side of a translation that produced `bytes`: they are placed in a fresh region whose address goes into the slot. */
    method Emit(bytes: seq<bv8>) returns (ok: bool)
      requires Valid()
      modifies this, memory
      ensures Valid() && memory == old(memory) && trace == old(trace)
      ensures ok ==>
        Within(Region(translatedPtr, |bytes|), memory.Length) &&
        Unclaimed(Region(translatedPtr, |bytes|), old(live)) &&
        live == old(live) + multiset{Region(translatedPtr, |bytes|)} &&
        memory[..] == Overwrite(old(memory[..]), translatedPtr, bytes) &&
        Bytes(Region(translatedPtr, |bytes|)) == bytes
      ensures !ok ==>
        (forall p: nat | p + |bytes| <= memory.Length :: !Unclaimed(Region(p, |bytes|), live)) &&
        live == old(live) && memory[..] == old(memory[..]) && translatedPtr == old(translatedPtr)
    {
      var at;
      ok, at := Place(|bytes|);
      if ok {
        Lease(Region(at, |bytes|));
        Store(at, bytes);
        translatedPtr := at;
      }
    }

    /**
     * The `translate` export: runs the translator on the `len` bytes at `ptr`.
     * On output it places the bytes in a fresh region, records its address in the
     * slot and returns their count; on failure it returns the negative code; a
     * panic, or no gap for the output, traps (`ok` false).
     */
    method Translate(target: int, ptr: nat, len: nat) returns (ok: bool, status: int)
      requires Valid() && Within(Region(ptr, len), memory.Length)
      modifies this, memory
      ensures Valid() && memory == old(memory)
      ensures var t := translator(target, old(Bytes(Region(ptr, len))));
        ok ==> (t.Output? <==> status >= 0)
      ensures var t := translator(target, old(Bytes(Region(ptr, len))));
        ok && status < 0 ==>
          t.Failure? && t.code == status && live == old(live) && translatedPtr == old(translatedPtr) &&
          memory[..] == old(memory[..]) && trace == old(trace) + [CallTranslate(target, ptr, len, status)]
      ensures var t := translator(target, old(Bytes(Region(ptr, len))));
        ok && status >= 0 ==>
          t.Output? && status == |t.bytes| &&
          Within(Region(translatedPtr, status), memory.Length) &&
          Unclaimed(Region(translatedPtr, status), old(live)) &&
          live == old(live) + multiset{Region(translatedPtr, status)} &&
          memory[..] == Overwrite(old(memory[..]), translatedPtr, t.bytes) &&
          Bytes(Region(translatedPtr, status)) == t.bytes &&
          trace == old(trace) + [CallTranslate(target, ptr, len, status)]
      ensures var t := translator(target, old(Bytes(Region(ptr, len))));
        !ok ==>
          Traps(t, memory.Length, live) &&
          live == old(live) && memory[..] == old(memory[..]) && translatedPtr == old(translatedPtr) &&
          trace == old(trace) + [TranslateTrapped(target, ptr, len)]
    {
      var input := memory[ptr..ptr + len];
      assert input == Bytes(Region(ptr, len));
      var t := translator(target, input);
      match t {
        case Panic =>
          ok, status := false, 0;
          trace := trace + [TranslateTrapped(target, ptr, len)];
        case Failure(code) =>
          ok, status := true, code;
          trace := trace + [CallTranslate(target, ptr, len, status)];
        case Output(bytes) =>
          ok := Emit(bytes);
          if ok {
            status := |bytes|;
            trace := trace + [CallTranslate(target, ptr, len, status)];
          } else {
            status := 0;
            trace := trace + [TranslateTrapped(target, ptr, len)];
          }
      }
    }

    /** The `getTranslatedPointer` export. */
    method GetTranslatedPointer() returns (ptr: nat)
      requires Valid()
      modifies this
      ensures Valid() && memory == old(memory) && memory[..] == old(memory[..])
      ensures live == old(live) && translatedPtr == old(translatedPtr)
      ensures ptr == translatedPtr
      ensures trace == old(trace) + [CallGetTranslatedPointer(ptr)]
    {
      ptr := translatedPtr;
      trace := trace + [CallGetTranslatedPointer(ptr)];
    }
  }
}
