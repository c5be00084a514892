/**
 * The playground's translation round trip (`runTranslation` in
 * playground/src/main.js): the editor text is copied into a region leased from
 * the `wasm_utils` instance, translated there, the translated bytes are decoded
 * back into the editor, both regions are freed, and the page switches to the
 * target syntax.
 *
 * JavaScript strings are sequences of UTF-16 code units and `length` counts
 * code units, so the editor text is a `Text` and the source window has
 * `|text|` bytes: the same count the source passes to `alloc`, `encodeInto`,
 * `translate` and `free`. `TextEncoder.encodeInto` and `TextDecoder.decode`
 * are left abstract; the one fact used about `encodeInto` is that it writes no more
 * bytes than its window holds.
 */
module Host {
  import opened Wrappers
  import opened Wasm
  import opened Utf16

  /** `TextEncoder.encodeInto(text, window)`: the bytes it writes into a window of `n` bytes. */
  type EncodeInto = f: (Text, nat) -> seq<bv8> | forall t, n :: |f(t, n)| <= n
    witness (t: Text, n: nat) => []

  /** A JavaScript boolean passed to an i32 parameter of an export. */
  function ToInt32(b: bool): (i: int)
    ensures 0 <= i <= 1 && (i == 1 <==> b)
  {
    if b then 1 else 0
  }

  /** The bytes of the source window once `encodeInto` has written `w` at its start. */
  function Window(m: seq<bv8>, ptr: nat, n: nat, w: seq<bv8>): (r: seq<bv8>)
    requires |w| <= n && ptr + n <= |m|
    ensures r == Overwrite(m, ptr, w)[ptr..ptr + n]
    ensures |r| == n && r[..|w|] == w && r[|w|..] == m[ptr + |w|..ptr + n]
  {
    OverwriteOutside(m, ptr, w);
    w + m[ptr + |w|..ptr + n]
  }

  /** The window holds the whole of what `encodeInto` wrote, and nothing else, only when that filled it. */
  lemma WindowIsWrittenBytes(m: seq<bv8>, ptr: nat, n: nat, w: seq<bv8>)
    requires |w| <= n && ptr + n <= |m|
    ensures Window(m, ptr, n, w) == w <==> |w| == n
  {
    if |w| == n {
      assert Window(m, ptr, n, w) == w + [];
    }
  }

  // ----- The page -----

  /** The parts of the page `runTranslation` touches: class lists, editor options, terminal theme. */
  datatype Ui = Ui(
    bsButton: set<string>,
    bsxButton: set<string>,
    body: set<string>,
    language: string,
    theme: string,
    terminalBackground: string)

  /** What the page shows of the selected syntax. */
  datatype Mode = Mode(
    language: string,
    theme: string,
    bsHidden: bool,
    bsxHidden: bool,
    dark: bool,
    terminalBackground: string)

  function ModeOf(ui: Ui): Mode {
    Mode(ui.language, ui.theme, "hidden" in ui.bsButton, "hidden" in ui.bsxButton,
         "dark" in ui.body, ui.terminalBackground)
  }

  /** The mode for a target syntax: "bs" on the light theme, or "bsx" on the dark one. */
  function ModeFor(targetBs: bool): Mode {
    if targetBs then Mode("bs", "Dawn", true, false, false, "#111")
    else Mode("bsx", "Sunburst", false, true, true, "#000")
  }

  /** The two modes are opposite in every respect. */
  lemma ModesOpposite()
    ensures ModeFor(true).bsHidden == !ModeFor(false).bsHidden
    ensures ModeFor(true).bsxHidden == !ModeFor(false).bsxHidden
    ensures ModeFor(true).dark == !ModeFor(false).dark
    ensures ModeFor(true).bsHidden != ModeFor(true).bsxHidden
    ensures ModeFor(true).language != ModeFor(false).language
    ensures ModeFor(true).theme != ModeFor(false).theme
    ensures ModeFor(true).terminalBackground != ModeFor(false).terminalBackground
  {
  }

  /** `after` shows the mode of `targetBs` and keeps every other class of `before`. */
  ghost predicate Switched(before: Ui, after: Ui, targetBs: bool) {
    ModeOf(after) == ModeFor(targetBs) &&
    after.bsButton - {"hidden"} == before.bsButton - {"hidden"} &&
    after.bsxButton - {"hidden"} == before.bsxButton - {"hidden"} &&
    after.body - {"dark"} == before.body - {"dark"}
  }

  // ----- What a run does -----

  /** How a run of `runTranslation` ends. */
  datatype Outcome =
    | AllocThrew
    | TranslateThrew(sourcePtr: nat)
    | Failed(sourcePtr: nat, status: int)
    | Succeeded(sourcePtr: nat, translatedPtr: nat, length: nat)
  {
    /** The run reached its end rather than an exception. */
    predicate Completed() {
      Failed? || Succeeded?
    }
  }

  /** The interactions of a run that ended with `o`, for a text of `n` code units of which `encodeInto` wrote `written` bytes. */
  function Protocol(o: Outcome, n: nat, target: int, written: nat): seq<Event> {
    match o
    case AllocThrew => [AllocTrapped(n)]
    case TranslateThrew(sp) =>
      [CallAlloc(n, sp), WriteSource(sp, written), TranslateTrapped(target, sp, n)]
    case Failed(sp, status) =>
      [CallAlloc(n, sp), WriteSource(sp, written), CallTranslate(target, sp, n, status), CallFree(sp, n)]
    case Succeeded(sp, tp, len) =>
      [CallAlloc(n, sp), WriteSource(sp, written), CallTranslate(target, sp, n, len),
       CallGetTranslatedPointer(tp), ReadPayload(tp, len), CallFree(tp, len), CallFree(sp, n)]
  }

  /**
   * `t` extended by the events after `translate` returned, one interaction at a
   * time: show the translation on a status `>= 0`, then free the source region.
   */
  function Closed(t: seq<Event>, o: Outcome, n: nat): seq<Event> {
    match o
    case Succeeded(sp, tp, len) =>
      t + [CallGetTranslatedPointer(tp)] + [ReadPayload(tp, len)] + [CallFree(tp, len)] + [CallFree(sp, n)]
    case Failed(sp, _) => t + [CallFree(sp, n)]
    case _ => t
  }

  /** `t` extended by the events from the call of `translate` on. */
  function Continued(t: seq<Event>, o: Outcome, n: nat, target: int): seq<Event> {
    match o
    case AllocThrew => t
    case TranslateThrew(sp) => t + [TranslateTrapped(target, sp, n)]
    case Failed(sp, status) => Closed(t + [CallTranslate(target, sp, n, status)], o, n)
    case Succeeded(sp, _, len) => Closed(t + [CallTranslate(target, sp, n, len)], o, n)
  }

  /** `t` extended by the events of a whole run, one interaction at a time. */
  function Logged(t: seq<Event>, o: Outcome, n: nat, target: int, written: nat): seq<Event> {
    match o
    case AllocThrew => t + [AllocTrapped(n)]
    case _ => Continued(t + [CallAlloc(n, o.sourcePtr)] + [WriteSource(o.sourcePtr, written)], o, n, target)
  }

  /** Logging a run interaction by interaction appends exactly its protocol. */
  lemma LoggedIsProtocol(t: seq<Event>, o: Outcome, n: nat, target: int, written: nat)
    ensures Logged(t, o, n, target, written) == t + Protocol(o, n, target, written)
  {
  }

  /** The regions freed in `t`, in order. */
  function Freed(t: seq<Event>): seq<Region> {
    if t == [] then []
    else (if t[0].CallFree? then [Region(t[0].ptr, t[0].len)] else []) + Freed(t[1..])
  }

  /** The regions read back from memory in `t`, in order. */
  function ReadBack(t: seq<Event>): seq<Region> {
    if t == [] then []
    else (if t[0].ReadPayload? then [Region(t[0].ptr, t[0].len)] else []) + ReadBack(t[1..])
  }

  /** The frees and reads of a trace are those of its parts, in order. */
  lemma {:induction false} FreedConcat(a: seq<Event>, b: seq<Event>)
    ensures Freed(a + b) == Freed(a) + Freed(b)
    ensures ReadBack(a + b) == ReadBack(a) + ReadBack(b)
    decreases |a|
  {
    if a == [] {
      assert a + b == b;
    } else {
      assert (a + b)[1..] == a[1..] + b;
      FreedConcat(a[1..], b);
    }
  }

  /**
   * The source region is allocated first and freed last, with the pointer and
   * length it was allocated with, and `translate` gets that same pair.
   */
  lemma SourceRegionPairing(o: Outcome, n: nat, target: int, written: nat)
    requires o.Completed()
    ensures var p := Protocol(o, n, target, written);
      p[0] == CallAlloc(n, o.sourcePtr) && p[|p| - 1] == CallFree(o.sourcePtr, n) &&
      p[2].CallTranslate? && p[2].ptr == o.sourcePtr && p[2].len == n
  {
  }

  lemma FreedStep(t: seq<Event>, k: nat)
    requires k < |t|
    ensures Freed(t[k..]) == (if t[k].CallFree? then [Region(t[k].ptr, t[k].len)] else []) + Freed(t[k + 1..])
    ensures ReadBack(t[k..]) == (if t[k].ReadPayload? then [Region(t[k].ptr, t[k].len)] else []) + ReadBack(t[k + 1..])
  {
    assert t[k..][1..] == t[k + 1..];
  }

  /**
   * What is freed: payload then source on success, the source alone on a
   * negative status, nothing when an export threw. Only a success reads memory
   * back, and then exactly `[translatedPtr, translatedPtr + status)`.
   */
  lemma {:induction false} FreedAndRead(o: Outcome, n: nat, target: int, written: nat)
    ensures var p := Protocol(o, n, target, written);
      Freed(p) == (match o
        case Succeeded(sp, tp, len) => [Region(tp, len), Region(sp, n)]
        case Failed(sp, _) => [Region(sp, n)]
        case _ => [])
    ensures var p := Protocol(o, n, target, written);
      ReadBack(p) == (match o
        case Succeeded(_, tp, len) => [Region(tp, len)]
        case _ => [])
  {
    var p := Protocol(o, n, target, written);
    assert p[|p|..] == [];
    if 6 < |p| { FreedStep(p, 6); }
    if 5 < |p| { FreedStep(p, 5); FreedStep(p, 4); FreedStep(p, 3); }
    if 2 < |p| { FreedStep(p, 2); FreedStep(p, 1); }
    FreedStep(p, 0);
    assert p[0..] == p;
  }

  /** `getTranslatedPointer` is called exactly on success, and then right after a `translate` that returned a status `>= 0`. */
  lemma PointerOnlyAfterSuccess(o: Outcome, n: nat, target: int, written: nat)
    ensures var p := Protocol(o, n, target, written);
      (exists i | 0 <= i < |p| :: p[i].CallGetTranslatedPointer?) <==> o.Succeeded?
    ensures var p := Protocol(o, n, target, written);
      forall i | 0 <= i < |p| && p[i].CallGetTranslatedPointer? ::
        0 < i && p[i - 1].CallTranslate? && p[i - 1].status >= 0
  {
    var p := Protocol(o, n, target, written);
    if o.Succeeded? {
      assert p[3].CallGetTranslatedPointer?;
    }
  }

  /** Nothing is read back, and no translated pointer fetched, after anything is freed. */
  lemma NoReadAfterFree(o: Outcome, n: nat, target: int, written: nat)
    ensures var p := Protocol(o, n, target, written);
      forall i, j | 0 <= i < j < |p| && p[i].CallFree? :: !p[j].ReadPayload? && !p[j].CallGetTranslatedPointer?
  {
  }

  // ----- Custody of leased regions -----

  /**
   * What the host holds during a run: the regions leased to it and, right after
   * a `translate` that returned a length, that length, which the next
   * `getTranslatedPointer` turns into a lease of the payload region.
   */
  datatype Custody = Custody(leased: multiset<Region>, pending: Option<nat>)

  /** `r` lies inside some leased region. */
  ghost predicate Covered(leased: multiset<Region>, r: Region) {
    exists l | l in leased :: l.ptr <= r.ptr && r.ptr + r.len <= l.ptr + l.len
  }

  /** The effect of one interaction on custody; `None` when it breaks the discipline. */
  ghost function Step(c: Custody, e: Event): Option<Custody> {
    match e
    case CallAlloc(len, ptr) => Some(Custody(c.leased + multiset{Region(ptr, len)}, None))
    case AllocTrapped(_) => Some(Custody(c.leased, None))
    case WriteSource(ptr, count) =>
      if Covered(c.leased, Region(ptr, count)) then Some(Custody(c.leased, None)) else None
    case CallTranslate(_, ptr, len, status) =>
      if Covered(c.leased, Region(ptr, len))
      then Some(Custody(c.leased, if status >= 0 then Some(status) else None)) else None
    case TranslateTrapped(_, ptr, len) =>
      if Covered(c.leased, Region(ptr, len)) then Some(Custody(c.leased, None)) else None
    case CallGetTranslatedPointer(ptr) =>
      if c.pending.Some? then Some(Custody(c.leased + multiset{Region(ptr, c.pending.value)}, None)) else None
    case ReadPayload(ptr, len) =>
      if Covered(c.leased, Region(ptr, len)) then Some(Custody(c.leased, None)) else None
    case CallFree(ptr, len) =>
      if Region(ptr, len) in c.leased
      then Some(Custody(c.leased - multiset{Region(ptr, len)}, None)) else None
  }

  /**
   * Replays `t` from custody `c`: `None` when some interaction writes, reads or
   * translates outside a leased region, frees a region not leased, or fetches
   * the translated pointer other than right after a successful `translate`.
   */
  ghost function Audit(c: Custody, t: seq<Event>): Option<Custody>
    decreases |t|
  {
    if t == [] then Some(c)
    else match Step(c, t[0])
      case None => None
      case Some(c') => Audit(c', t[1..])
  }

  /** The regions a run that ended with `o` leaves leased. */
  function Leaked(o: Outcome, n: nat): multiset<Region> {
    if o.TranslateThrew? then multiset{Region(o.sourcePtr, n)} else multiset{}
  }

  /** One step of a replay. */
  lemma AuditAt(c: Custody, t: seq<Event>, k: nat, c': Custody)
    requires k < |t| && Step(c, t[k]) == Some(c')
    ensures Audit(c, t[k..]) == Audit(c', t[k + 1..])
  {
    assert t[k..][1..] == t[k + 1..];
  }

  /** The custody after leasing the source region. */
  function WithSource(leased: multiset<Region>, sp: nat, n: nat): Custody {
    Custody(leased + multiset{Region(sp, n)}, None)
  }

  /** Writing and translating inside the source region keep the discipline. */
  lemma SourceAccessesCovered(leased: multiset<Region>, sp: nat, n: nat, written: nat)
    requires written <= n
    ensures Covered(WithSource(leased, sp, n).leased, Region(sp, written))
    ensures Covered(WithSource(leased, sp, n).leased, Region(sp, n))
  {
    assert Region(sp, n) in WithSource(leased, sp, n).leased;
  }

  lemma {:induction false} CustodyWhenTranslateThrew(sp: nat, n: nat, target: int, written: nat, leased: multiset<Region>)
    requires written <= n
    ensures Audit(Custody(leased, None), Protocol(TranslateThrew(sp), n, target, written))
         == Some(WithSource(leased, sp, n))
  {
    var p := Protocol(TranslateThrew(sp), n, target, written);
    var c1 := WithSource(leased, sp, n);
    SourceAccessesCovered(leased, sp, n, written);
    AuditAt(Custody(leased, None), p, 0, c1);
    AuditAt(c1, p, 1, c1);
    AuditAt(c1, p, 2, c1);
    assert p[0..] == p && p[3..] == [];
  }

  lemma {:induction false} CustodyWhenFailed(sp: nat, status: int, n: nat, target: int, written: nat, leased: multiset<Region>)
    requires written <= n
    ensures Audit(Custody(leased, None), Protocol(Failed(sp, status), n, target, written))
         == Some(Custody(leased, None))
  {
    var p := Protocol(Failed(sp, status), n, target, written);
    var c1 := WithSource(leased, sp, n);
    var c3 := Custody(c1.leased, if status >= 0 then Some(status) else None);
    SourceAccessesCovered(leased, sp, n, written);
    AuditAt(Custody(leased, None), p, 0, c1);
    AuditAt(c1, p, 1, c1);
    AuditAt(c1, p, 2, c3);
    assert c1.leased - multiset{Region(sp, n)} == leased;
    AuditAt(c3, p, 3, Custody(leased, None));
    assert p[0..] == p && p[4..] == [];
  }

  /** Each interaction of a successful run, taken on its own, keeps the discipline. */
  lemma SucceededSteps(sp: nat, tp: nat, len: nat, n: nat, target: int, written: nat, leased: multiset<Region>)
    requires written <= n
    ensures var c1 := WithSource(leased, sp, n);
      var c4 := Custody(c1.leased + multiset{Region(tp, len)}, None);
      Step(Custody(leased, None), CallAlloc(n, sp)) == Some(c1) &&
      Step(c1, WriteSource(sp, written)) == Some(c1) &&
      Step(c1, CallTranslate(target, sp, n, len)) == Some(Custody(c1.leased, Some(len))) &&
      Step(Custody(c1.leased, Some(len)), CallGetTranslatedPointer(tp)) == Some(c4) &&
      Step(c4, ReadPayload(tp, len)) == Some(c4) &&
      Step(c4, CallFree(tp, len)) == Some(c1) &&
      Step(c1, CallFree(sp, n)) == Some(Custody(leased, None))
  {
    var c1 := WithSource(leased, sp, n);
    var c4 := Custody(c1.leased + multiset{Region(tp, len)}, None);
    SourceAccessesCovered(leased, sp, n, written);
    assert Covered(c4.leased, Region(tp, len)) by { assert Region(tp, len) in c4.leased; }
    assert c4.leased - multiset{Region(tp, len)} == c1.leased;
    assert c1.leased - multiset{Region(sp, n)} == leased;
  }

  lemma {:induction false} CustodyWhenSucceeded(sp: nat, tp: nat, len: nat, n: nat, target: int, written: nat, leased: multiset<Region>)
    requires written <= n
    ensures Audit(Custody(leased, None), Protocol(Succeeded(sp, tp, len), n, target, written))
         == Some(Custody(leased, None))
  {
    var p := Protocol(Succeeded(sp, tp, len), n, target, written);
    var c1 := WithSource(leased, sp, n);
    var c3 := Custody(c1.leased, Some(len));
    var c4 := Custody(c1.leased + multiset{Region(tp, len)}, None);
    SucceededSteps(sp, tp, len, n, target, written, leased);
    AuditAt(Custody(leased, None), p, 0, c1);
    AuditAt(c1, p, 1, c1);
    AuditAt(c1, p, 2, c3);
    AuditAt(c3, p, 3, c4);
    AuditAt(c4, p, 4, c4);
    AuditAt(c4, p, 5, c1);
    AuditAt(c1, p, 6, Custody(leased, None));
    assert p[0..] == p && p[7..] == [];
  }

  /**
   * Every run keeps the ownership discipline, and a completed run returns every
   * lease it took: it ends holding exactly what it started with. A run whose
   * `translate` trapped still holds the source region.
   */
  lemma {:induction false} ProtocolKeepsCustody(o: Outcome, n: nat, target: int, written: nat, leased: multiset<Region>)
    requires written <= n
    ensures Audit(Custody(leased, None), Protocol(o, n, target, written))
         == Some(Custody(leased + Leaked(o, n), None))
  {
    match o
    case AllocThrew =>
      var p := Protocol(o, n, target, written);
      AuditAt(Custody(leased, None), p, 0, Custody(leased, None));
      assert p[0..] == p && p[1..] == [];
      assert leased + Leaked(o, n) == leased;
    case TranslateThrew(sp) =>
      CustodyWhenTranslateThrew(sp, n, target, written, leased);
    case Failed(sp, status) =>
      CustodyWhenFailed(sp, status, n, target, written, leased);
      assert leased + Leaked(o, n) == leased;
    case Succeeded(sp, tp, len) =>
      CustodyWhenSucceeded(sp, tp, len, n, target, written, leased);
      assert leased + Leaked(o, n) == leased;
  }

  // ----- The host -----

  class Playground {
    /** `(await wasmUtils).instance`. */
    const lib: Instance
    const encodeInto: EncodeInto
    /** `TextDecoder.decode`. */
    const decode: seq<bv8> -> Text
    /** The Monaco editor's text. */
    var editorText: Text
    var ui: Ui

    ghost predicate Valid()
      reads lib`memory, lib`live
    {
      lib.Valid()
    }

    constructor (lib: Instance, encodeInto: EncodeInto, decode: seq<bv8> -> Text, text: Text, ui: Ui)
      requires lib.Valid()
      ensures Valid() && this.lib == lib && this.encodeInto == encodeInto && this.decode == decode
      ensures editorText == text && this.ui == ui
    {
      this.lib := lib;
      this.encodeInto := encodeInto;
      this.decode := decode;
      editorText := text;
      this.ui := ui;
    }

    /** The class-list and option updates at the end of `runTranslation`, one statement per source line. */
    method SwitchMode(targetBs: bool)
      modifies this`ui
      ensures Switched(old(ui), ui, targetBs)
    {
      if targetBs {
        ui := ui.(bsButton := ui.bsButton + {"hidden"});
        ui := ui.(bsxButton := ui.bsxButton - {"hidden"});
        ui := ui.(language := "bs", theme := "Dawn");
        ui := ui.(terminalBackground := "#111");
        ui := ui.(body := ui.body - {"dark"});
      } else {
        ui := ui.(bsButton := ui.bsButton - {"hidden"});
        ui := ui.(bsxButton := ui.bsxButton + {"hidden"});
        ui := ui.(language := "bsx", theme := "Sunburst");
        ui := ui.(terminalBackground := "#000");
        ui := ui.(body := ui.body + {"dark"});
      }
    }

    /**
     * Has `encodeInto` write the source text into the window of `|sourceText|`
     * bytes at `sourcePtr`, the bytes past what it wrote keeping their old values.
     */
    method EncodeSource(sourceText: Text, sourcePtr: nat)
      requires Valid() && sourcePtr + |sourceText| <= lib.memory.Length
      modifies lib, lib.memory
      ensures Valid() && lib.memory == old(lib.memory)
      ensures lib.live == old(lib.live) && lib.translatedPtr == old(lib.translatedPtr)
      ensures var n := |sourceText|; var w := encodeInto(sourceText, n);
        lib.memory[..] == Overwrite(old(lib.memory[..]), sourcePtr, w) &&
        lib.Bytes(Region(sourcePtr, n)) == Window(old(lib.memory[..]), sourcePtr, n, w) &&
        lib.trace == old(lib.trace) + [WriteSource(sourcePtr, |w|)]
    {
      var written := encodeInto(sourceText, |sourceText|);
      lib.Store(sourcePtr, written);
      lib.trace := lib.trace + [WriteSource(sourcePtr, |written|)];
    }

    /**
     * The success branch: fetch the payload address, decode the `translatedLength`
     * bytes there into the editor, and free the payload region.
     */
    method ShowTranslation(translatedLength: nat) returns (translatedPtr: nat)
      requires Valid() && Region(lib.translatedPtr, translatedLength) in lib.live
      modifies this, lib
      ensures Valid() && lib.memory == old(lib.memory) && lib.memory[..] == old(lib.memory[..])
      ensures translatedPtr == lib.translatedPtr == old(lib.translatedPtr)
      ensures Within(Region(translatedPtr, translatedLength), lib.memory.Length)
      ensures editorText == decode(old(lib.Bytes(Region(translatedPtr, translatedLength))))
      ensures lib.live == old(lib.live) - multiset{Region(translatedPtr, translatedLength)}
      ensures lib.trace == old(lib.trace) + [CallGetTranslatedPointer(translatedPtr)]
        + [ReadPayload(translatedPtr, translatedLength)] + [CallFree(translatedPtr, translatedLength)]
      ensures ui == old(ui)
    {
      translatedPtr := lib.GetTranslatedPointer();
      var translatedBuffer := lib.memory[translatedPtr..translatedPtr + translatedLength];
      assert translatedBuffer == lib.Bytes(Region(translatedPtr, translatedLength));
      lib.trace := lib.trace + [ReadPayload(translatedPtr, translatedLength)];
      editorText := decode(translatedBuffer);
      lib.Free(translatedPtr, translatedLength);
    }

    /**
     * Lines 77-111 of `runTranslation`, once `translate` has returned `status`:
     * on a status `>= 0` show the translation and free its region, then free the
     * source region and switch the page to the target syntax.
     */
    method Conclude(targetBs: bool, sourcePtr: nat, n: nat, status: int,
                    ghost before: multiset<Region>, ghost payload: seq<bv8>) returns (outcome: Outcome)
      requires Valid() && Region(sourcePtr, n) in before
      requires status < 0 ==> lib.live == before
      requires status >= 0 ==>
        lib.live == before + multiset{Region(lib.translatedPtr, status)} &&
        lib.Bytes(Region(lib.translatedPtr, status)) == payload
      modifies this, lib
      ensures Valid() && lib.memory == old(lib.memory) && lib.memory[..] == old(lib.memory[..])
      ensures lib.translatedPtr == old(lib.translatedPtr)
      ensures outcome == if status >= 0 then Succeeded(sourcePtr, lib.translatedPtr, status) else Failed(sourcePtr, status)
      ensures status >= 0 ==> editorText == decode(payload)
      ensures status < 0 ==> editorText == old(editorText)
      ensures lib.live == before - multiset{Region(sourcePtr, n)}
      ensures lib.trace == Closed(old(lib.trace), outcome, n)
      ensures Switched(old(ui), ui, targetBs)
    {
      if status >= 0 {
        var translatedPtr := ShowTranslation(status);
        assert lib.live == before;
        outcome := Succeeded(sourcePtr, translatedPtr, status);
      } else {
        outcome := Failed(sourcePtr, status);
      }
      lib.Free(sourcePtr, n);
      SwitchMode(targetBs);
    }

    /**
     * Lines 75-111 of `runTranslation`: translate the `n` bytes of the source
     * region and conclude.
     */
    method TranslateWindow(targetBs: bool, sourcePtr: nat, n: nat) returns (outcome: Outcome)
      requires Valid() && Region(sourcePtr, n) in lib.live
      modifies this, lib, lib.memory
      ensures Valid() && lib.memory == old(lib.memory) && sourcePtr + n <= lib.memory.Length
      ensures !outcome.AllocThrew? && outcome.sourcePtr == sourcePtr
      ensures lib.trace == Continued(old(lib.trace), outcome, n, ToInt32(targetBs))
      ensures outcome.TranslateThrew? ==>
        Traps(lib.translator(ToInt32(targetBs), old(lib.Bytes(Region(sourcePtr, n)))), lib.memory.Length, lib.live) &&
        lib.live == old(lib.live) && lib.memory[..] == old(lib.memory[..]) &&
        lib.translatedPtr == old(lib.translatedPtr) && editorText == old(editorText) && ui == old(ui)
      ensures outcome.Failed? ==>
        var t := lib.translator(ToInt32(targetBs), old(lib.Bytes(Region(sourcePtr, n))));
        t.Failure? && t.code == outcome.status &&
        lib.live == old(lib.live) - multiset{Region(sourcePtr, n)} &&
        lib.memory[..] == old(lib.memory[..]) &&
        lib.translatedPtr == old(lib.translatedPtr) && editorText == old(editorText) &&
        Switched(old(ui), ui, targetBs)
      ensures outcome.Succeeded? ==>
        var t := lib.translator(ToInt32(targetBs), old(lib.Bytes(Region(sourcePtr, n))));
        var tp := outcome.translatedPtr; var len := outcome.length;
        t.Output? && |t.bytes| == len &&
        Within(Region(tp, len), lib.memory.Length) && Unclaimed(Region(tp, len), old(lib.live)) &&
        lib.translatedPtr == tp &&
        lib.live == old(lib.live) - multiset{Region(sourcePtr, n)} &&
        lib.memory[..] == Overwrite(old(lib.memory[..]), tp, t.bytes) &&
        editorText == decode(t.bytes) &&
        Switched(old(ui), ui, targetBs)
    {
      var target := ToInt32(targetBs);
      var translated, status := lib.Translate(target, sourcePtr, n);
      if !translated {
        outcome := TranslateThrew(sourcePtr);
        return;
      }
      ghost var payload := if status >= 0 then lib.Bytes(Region(lib.translatedPtr, status)) else [];
      outcome := Conclude(targetBs, sourcePtr, n, status, old(lib.live), payload);
    }

    /**
     * Lines 70-111 of `runTranslation`, once `alloc` has leased the source
     * region `[sourcePtr, sourcePtr + |sourceText|)`.
     */
    method TranslateSource(targetBs: bool, sourceText: Text, sourcePtr: nat) returns (outcome: Outcome)
      requires Valid() && Region(sourcePtr, |sourceText|) in lib.live
      modifies this, lib, lib.memory
      ensures Valid() && lib.memory == old(lib.memory)
      ensures !outcome.AllocThrew? && outcome.sourcePtr == sourcePtr
      ensures var n := |sourceText|; var w := encodeInto(sourceText, n);
        lib.trace == Continued(old(lib.trace) + [WriteSource(sourcePtr, |w|)], outcome, n, ToInt32(targetBs))
      ensures outcome.TranslateThrew? ==>
        var n := |sourceText|; var w := encodeInto(sourceText, n);
        sourcePtr + n <= lib.memory.Length &&
        Traps(lib.translator(ToInt32(targetBs), Window(old(lib.memory[..]), sourcePtr, n, w)), lib.memory.Length, lib.live) &&
        lib.live == old(lib.live) &&
        lib.memory[..] == Overwrite(old(lib.memory[..]), sourcePtr, w) &&
        lib.translatedPtr == old(lib.translatedPtr) && editorText == old(editorText) && ui == old(ui)
      ensures outcome.Failed? ==>
        var n := |sourceText|; var w := encodeInto(sourceText, n);
        sourcePtr + n <= lib.memory.Length &&
        var t := lib.translator(ToInt32(targetBs), Window(old(lib.memory[..]), sourcePtr, n, w));
        t.Failure? && t.code == outcome.status &&
        lib.live == old(lib.live) - multiset{Region(sourcePtr, n)} &&
        lib.memory[..] == Overwrite(old(lib.memory[..]), sourcePtr, w) &&
        lib.translatedPtr == old(lib.translatedPtr) && editorText == old(editorText) &&
        Switched(old(ui), ui, targetBs)
      ensures outcome.Succeeded? ==>
        var n := |sourceText|; var w := encodeInto(sourceText, n);
        sourcePtr + n <= lib.memory.Length &&
        var t := lib.translator(ToInt32(targetBs), Window(old(lib.memory[..]), sourcePtr, n, w));
        var out := Region(outcome.translatedPtr, outcome.length);
        t.Output? && |t.bytes| == outcome.length &&
        Within(out, lib.memory.Length) && Unclaimed(out, old(lib.live)) &&
        lib.translatedPtr == outcome.translatedPtr &&
        lib.live == old(lib.live) - multiset{Region(sourcePtr, n)} &&
        lib.memory[..] == Overwrite(Overwrite(old(lib.memory[..]), sourcePtr, w), out.ptr, t.bytes) &&
        editorText == decode(t.bytes) &&
        Switched(old(ui), ui, targetBs)
    {
      var n := |sourceText|;
      EncodeSource(sourceText, sourcePtr);
      outcome := TranslateWindow(targetBs, sourcePtr, n);
    }

    /** `runTranslation(targetBs)`. */
    method RunTranslation(targetBs: bool) returns (outcome: Outcome)
      requires Valid()
      modifies this, lib, lib.memory
      ensures Valid() && lib.memory == old(lib.memory)
      ensures var n := |old(editorText)|;
        lib.trace == old(lib.trace) + Protocol(outcome, n, ToInt32(targetBs), |encodeInto(old(editorText), n)|)
      ensures outcome.AllocThrew? ==>
        (forall p: nat | p + |old(editorText)| <= lib.memory.Length :: !Unclaimed(Region(p, |old(editorText)|), lib.live)) &&
        lib.live == old(lib.live) && lib.memory[..] == old(lib.memory[..]) &&
        lib.translatedPtr == old(lib.translatedPtr) && editorText == old(editorText) && ui == old(ui)
      ensures !outcome.AllocThrew? ==>
        var src := Region(outcome.sourcePtr, |old(editorText)|);
        Within(src, lib.memory.Length) && Unclaimed(src, old(lib.live))
      ensures outcome.TranslateThrew? ==>
        var n := |old(editorText)|; var sp := outcome.sourcePtr; var w := encodeInto(old(editorText), n);
        sp + n <= lib.memory.Length &&
        Traps(lib.translator(ToInt32(targetBs), Window(old(lib.memory[..]), sp, n, w)), lib.memory.Length, lib.live) &&
        lib.live == old(lib.live) + multiset{Region(sp, n)} &&
        lib.memory[..] == Overwrite(old(lib.memory[..]), sp, w) &&
        lib.translatedPtr == old(lib.translatedPtr) && editorText == old(editorText) && ui == old(ui)
      ensures outcome.Failed? ==>
        var n := |old(editorText)|; var sp := outcome.sourcePtr; var w := encodeInto(old(editorText), n);
        sp + n <= lib.memory.Length &&
        var t := lib.translator(ToInt32(targetBs), Window(old(lib.memory[..]), sp, n, w));
        t.Failure? && t.code == outcome.status &&
        lib.live == old(lib.live) &&
        lib.memory[..] == Overwrite(old(lib.memory[..]), sp, w) &&
        lib.translatedPtr == old(lib.translatedPtr) && editorText == old(editorText) &&
        Switched(old(ui), ui, targetBs)
      ensures outcome.Succeeded? ==>
        var n := |old(editorText)|; var sp := outcome.sourcePtr; var w := encodeInto(old(editorText), n);
        sp + n <= lib.memory.Length &&
        var t := lib.translator(ToInt32(targetBs), Window(old(lib.memory[..]), sp, n, w));
        var out := Region(outcome.translatedPtr, outcome.length);
        t.Output? && |t.bytes| == outcome.length &&
        Within(out, lib.memory.Length) && Unclaimed(out, old(lib.live) + multiset{Region(sp, n)}) &&
        lib.translatedPtr == outcome.translatedPtr &&
        lib.live == old(lib.live) &&
        lib.memory[..] == Overwrite(Overwrite(old(lib.memory[..]), sp, w), out.ptr, t.bytes) &&
        editorText == decode(t.bytes) &&
        Switched(old(ui), ui, targetBs)
    {
      var sourceText := editorText;
      var sourcePtr;
      var leased;
      leased, sourcePtr := lib.Alloc(|sourceText|);
      if !leased {
        outcome := AllocThrew;
        return;
      }
      outcome := TranslateSource(targetBs, sourceText, sourcePtr);
      LoggedIsProtocol(old(lib.trace), outcome, |sourceText|, ToInt32(targetBs), |encodeInto(sourceText, |sourceText|)|);
    }
  }
}
