/**
 The buffered flash writer (hal_utils.cpp): single-byte writes in any order are gathered into 256-byte pages.
 Programming NOR flash can only clear bits; erasing a sector sets them all.
 */
module FlashBuffer {
  const XIP_BASE: nat := 0x1000_0000
  const NONE: nat := 0xFFFF_FFFF
  const ERASED: bv8 := 0xFF
  const UPLOAD: nat := 0x3F_8000
  const STORAGE: nat := 0x3F_C000

  /**
   Flash contents, the page being gathered, where it belongs (or `NONE`), and writes to it; pages programmed so
   far.
   */
  datatype State = State(flash: seq<bv8>, page: seq<bv8>, offset: nat, pos: nat, programs: nat)
  {
    predicate Valid() {
      && |flash| < NONE && |flash| % 256 == 0 && |page| == 256
      && (offset == NONE || (offset % 256 == 0 && offset + 256 <= |flash|))
    }
  }

  /** The start of the page around `a`. */
  function PageOf(a: nat): (p: nat)
    ensures p <= a < p + 256 && p % 256 == 0
  {
    a - a % 256
  }

  lemma PageInside(a: nat, n: nat)
    requires a < n && n % 256 == 0
    ensures PageOf(a) + 256 <= n
  {
  }

  /** Programming a page clears bits and sets none. */
  function Cell(flash: seq<bv8>, offset: nat, page: seq<bv8>, a: nat): (r: bv8)
    requires |page| == 256 && a < |flash|
  {
    if offset <= a < offset + 256 then flash[a] & page[a - offset] else flash[a]
  }

  function Cells(flash: seq<bv8>, offset: nat, page: seq<bv8>, n: nat): (r: seq<bv8>)
    requires |page| == 256 && n <= |flash|
    ensures |r| == n
  {
    if n == 0 then [] else Cells(flash, offset, page, n - 1) + [Cell(flash, offset, page, n - 1)]
  }

  lemma {:induction false} CellAt(flash: seq<bv8>, offset: nat, page: seq<bv8>, n: nat, a: nat)
    requires |page| == 256 && a < n <= |flash|
    ensures Cells(flash, offset, page, n)[a] == Cell(flash, offset, page, a)
  {
    if a < n - 1 {
      CellAt(flash, offset, page, n - 1, a);
    }
  }

  function Program(flash: seq<bv8>, offset: nat, page: seq<bv8>): (r: seq<bv8>)
    requires |page| == 256 && offset + 256 <= |flash|
    ensures |r| == |flash|
  {
    Cells(flash, offset, page, |flash|)
  }

  lemma ProgramAt(flash: seq<bv8>, offset: nat, page: seq<bv8>, a: nat)
    requires |page| == 256 && offset + 256 <= |flash| && a < |flash|
    ensures Program(flash, offset, page)[a] == Cell(flash, offset, page, a)
  {
    CellAt(flash, offset, page, |flash|, a);
  }

  /** A blank page changes nothing. */
  lemma ProgramBlank(flash: seq<bv8>, offset: nat)
    requires offset + 256 <= |flash|
    ensures Program(flash, offset, Blank()) == flash
  {
    forall a | 0 <= a < |flash| ensures Program(flash, offset, Blank())[a] == flash[a] {
      ProgramAt(flash, offset, Blank(), a);
    }
  }

  lemma CellStore(flash: seq<bv8>, offset: nat, page: seq<bv8>, a: nat, v: bv8, b: nat)
    requires |page| == 256 && offset <= a < offset + 256 && a < |flash| && b < |flash|
    ensures Cell(flash, offset, page[a - offset := v], b) == if b == a then flash[a] & v
            else Cell(flash, offset, page, b)
  {
  }

  /** One byte of the page is one byte of the flash. */
  lemma ProgramStore(flash: seq<bv8>, offset: nat, page: seq<bv8>, a: nat, v: bv8)
    requires |page| == 256 && offset + 256 <= |flash| && offset <= a < offset + 256
    ensures Program(flash, offset, page[a - offset := v]) == Program(flash, offset, page)[a := flash[a] & v]
  {
    var x, y := Program(flash, offset, page[a - offset := v]), Program(flash, offset, page)[a := flash[a] & v];
    forall b | 0 <= b < |flash| ensures x[b] == y[b] {
      ProgramAt(flash, offset, page[a - offset := v], b);
      ProgramAt(flash, offset, page, b);
      CellStore(flash, offset, page, a, v, b);
    }
    assert x == y;
  }

  /** The flash as it will be once the page is programmed. */
  function Image(s: State): (r: seq<bv8>)
    requires s.Valid()
    ensures |r| == |s.flash|
  {
    if s.offset == NONE then s.flash else Program(s.flash, s.offset, s.page)
  }

  function Flush(s: State): (r: State)
    requires s.Valid()
    ensures r.Valid() && r.offset == NONE && |r.flash| == |s.flash|
  {
    if s.offset == NONE then s else s.(flash := Image(s), offset := NONE, pos := 0, programs := s.programs + 1)
  }

  lemma FlushImage(s: State)
    requires s.Valid()
    ensures Flush(s).flash == Image(s) == Image(Flush(s))
  {
  }

  function Blank(): (r: seq<bv8>) {
    seq(256, i => ERASED)
  }

  /** The page of `a` is the one being gathered. */
  function Select(s: State, a: nat): (r: State)
    requires s.Valid() && a < |s.flash|
    ensures r.Valid() && r.offset == PageOf(a) && |r.flash| == |s.flash|
  {
    PageInside(a, |s.flash|);
    if s.offset == PageOf(a) then s else Flush(s).(page := Blank(), offset := PageOf(a), pos := 0)
  }

  function WriteByte(s: State, a: nat, v: bv8): (r: State)
    requires s.Valid() && a < |s.flash|
    ensures r.Valid() && |r.flash| == |s.flash|
  {
    var t := Select(s, a);
    var u := t.(page := t.page[a - t.offset := v]);
    if t.pos + 1 >= 256 then Flush(u) else u.(pos := t.pos + 1)
  }

  lemma SelectImage(s: State, a: nat)
    requires s.Valid() && a < |s.flash|
    ensures Image(Select(s, a)) == Image(s)
    ensures Select(s, a).flash[a] == if s.offset == PageOf(a) then s.flash[a] else Image(s)[a]
  {
    FlushImage(s);
    PageInside(a, |s.flash|);
    ProgramBlank(Flush(s).flash, PageOf(a));
  }

  lemma StoreImage(s: State, a: nat, v: bv8)
    requires s.Valid() && a < |s.flash| && s.offset == PageOf(a)
    ensures Image(s.(page := s.page[a - s.offset := v])) == Image(s)[a := s.flash[a] & v]
  {
    ProgramStore(s.flash, s.offset, s.page, a, v);
  }

  /** What `a` holds below the page being gathered. */
  function Below(s: State, a: nat): (r: bv8)
    requires s.Valid() && a < |s.flash|
  {
    if s.offset == PageOf(a) then s.flash[a] else Image(s)[a]
  }

  /**
   One write, exactly: byte `a` becomes what it was when its page was opened, with `v` programmed over it, so a byte
   gathered for `a` before is lost; nothing else changes.
   */
  lemma WriteImage(s: State, a: nat, v: bv8)
    requires s.Valid() && a < |s.flash|
    ensures Image(WriteByte(s, a, v)) == Image(s)[a := Below(s, a) & v]
  {
    var t := Select(s, a);
    assert Select(t, a) == t;
    assert WriteByte(s, a, v) == WriteByte(t, a, v);
    SelectImage(s, a);
    assert t.flash[a] == Below(s, a);
    StoreImage(t, a, v);
    FillImage(t, a, v);
  }

  lemma FillImage(t: State, a: nat, v: bv8)
    requires t.Valid() && a < |t.flash| && t.offset == PageOf(a)
    ensures Image(WriteByte(t, a, v)) == Image(t.(page := t.page[a - t.offset := v]))
  {
    FlushImage(t.(page := t.page[a - t.offset := v]));
  }

  /** Nothing is gathered for `a`. */
  predicate Untouched(s: State, a: nat)
    requires s.Valid() && a < |s.flash|
  {
    s.offset == PageOf(a) ==> s.page[a - s.offset] == ERASED
  }

  /** A byte gathered for `a` has zeros that neither the flash nor `v` has. */
  predicate LosesZeros(s: State, a: nat, v: bv8)
    requires s.Valid() && a < |s.flash|
  {
    s.offset == PageOf(a) && s.flash[a] & v & !s.page[a - s.offset] != 0
  }

  lemma LostZeros(x: bv8, p: bv8, v: bv8)
    ensures x & v == x & p & v <==> x & v & !p == 0
    ensures p == ERASED ==> x & v & !p == 0
  {
  }

  lemma ImageAt(s: State, a: nat)
    requires s.Valid() && a < |s.flash| && s.offset == PageOf(a)
    ensures Image(s)[a] == s.flash[a] & s.page[a - s.offset]
  {
    PageInside(a, |s.flash|);
    ProgramAt(s.flash, s.offset, s.page, a);
  }

  lemma BelowIsImage(s: State, a: nat, v: bv8)
    requires s.Valid() && a < |s.flash|
    ensures Below(s, a) & v == Image(s)[a] & v <==> !LosesZeros(s, a, v)
    ensures Untouched(s, a) ==> !LosesZeros(s, a, v)
  {
    if s.offset == PageOf(a) {
      ImageAt(s, a);
      LostZeros(s.flash[a], s.page[a - s.offset], v);
    }
  }

  /** So a write agrees with direct programming if and only if no zero gathered for `a` is lost. */
  lemma WriteIsDirect(s: State, a: nat, v: bv8)
    requires s.Valid() && a < |s.flash|
    ensures Image(WriteByte(s, a, v)) == Image(s)[a := Image(s)[a] & v] <==> !LosesZeros(s, a, v)
    ensures Untouched(s, a) ==> !LosesZeros(s, a, v)
  {
    WriteImage(s, a, v);
    BelowIsImage(s, a, v);
    SameUpdate(Image(s), a, Below(s, a) & v, Image(s)[a] & v);
  }

  lemma SameUpdate(f: seq<bv8>, a: nat, x: bv8, y: bv8)
    requires a < |f|
    ensures f[a := x] == f[a := y] <==> x == y
  {
    assert f[a := x][a] == x && f[a := y][a] == y;
  }

  /** Writing 0x0F and then 0xF0 to one erased byte leaves 0xF0, where programming both leaves 0. */
  lemma OverwriteLosesZeros(s: State, a: nat)
    requires s.Valid() && a < |s.flash| && s.offset == NONE && s.flash[a] == ERASED
    ensures Image(WriteByte(WriteByte(s, a, 0x0F), a, 0xF0))[a] == 0xF0 != ERASED & 0x0F & 0xF0
  {
    WriteImage(s, a, 0x0F);
    WriteImage(WriteByte(s, a, 0x0F), a, 0xF0);
  }

  // ----- Sequences of writes -------------------------------------------------------------------------------

  datatype Write = Write(addr: nat, value: bv8)

  predicate InFlash(ws: seq<Write>, n: nat) {
    forall i :: 0 <= i < |ws| ==> ws[i].addr < n
  }

  predicate Distinct(ws: seq<Write>) {
    forall i, j :: 0 <= i < j < |ws| ==> ws[i].addr != ws[j].addr
  }

  function Writes(s: State, ws: seq<Write>): (r: State)
    requires s.Valid() && InFlash(ws, |s.flash|)
    ensures r.Valid() && |r.flash| == |s.flash|
    decreases |ws|
  {
    if ws == [] then s
    else
      var n := |ws| - 1;
      WriteByte(Writes(s, ws[..n]), ws[n].addr, ws[n].value)
  }

  lemma WritesLast(s: State, ws: seq<Write>, all: seq<Write>, a: nat, v: bv8)
    requires s.Valid() && InFlash(all, |s.flash|) && all == ws + [Write(a, v)]
    ensures InFlash(ws, |s.flash|) && a < |s.flash|
    ensures Writes(s, all) == WriteByte(Writes(s, ws), a, v)
  {
    assert all[..|ws|] == ws && all[|ws|] == Write(a, v);
  }

  lemma WritesSnoc(s: State, ws: seq<Write>, w: Write)
    requires s.Valid() && InFlash(ws, |s.flash|) && w.addr < |s.flash|
    ensures Writes(s, ws + [w]) == WriteByte(Writes(s, ws), w.addr, w.value)
  {
    assert (ws + [w])[..|ws|] == ws;
  }

  function WritePair(s: State, w0: Write, w1: Write): (r: State)
    requires s.Valid() && w0.addr < |s.flash| && w1.addr < |s.flash|
    ensures r.Valid() && |r.flash| == |s.flash|
  {
    WriteByte(WriteByte(s, w0.addr, w0.value), w1.addr, w1.value)
  }

  lemma WritesTwo(s: State, ws: seq<Write>)
    requires s.Valid() && |ws| == 2 && InFlash(ws, |s.flash|)
    ensures Writes(s, ws) == WritePair(s, ws[0], ws[1])
  {
    assert ws[..1][..0] == [];
    assert Writes(s, ws[..1]) == WriteByte(s, ws[0].addr, ws[0].value);
  }

  lemma {:induction false} WritesConcat(s: State, ws: seq<Write>, vs: seq<Write>)
    requires s.Valid() && InFlash(ws, |s.flash|) && InFlash(vs, |s.flash|)
    ensures Writes(s, ws + vs) == Writes(Writes(s, ws), vs)
    decreases |vs|
  {
    if vs == [] {
      assert ws + vs == ws;
    } else {
      var n := |vs| - 1;
      WritesConcat(s, ws, vs[..n]);
      WritesSnoc(s, ws + vs[..n], vs[n]);
      assert ws + vs == ws + vs[..n] + [vs[n]];
    }
  }

  lemma WritesFour(s: State, ws: seq<Write>)
    requires s.Valid() && |ws| == 4 && InFlash(ws, |s.flash|)
    ensures Writes(s, ws) == WritePair(WritePair(s, ws[0], ws[1]), ws[2], ws[3])
  {
    var low, high := ws[..2], ws[2..];
    assert ws == low + high;
    WritesTwo(s, low);
    WritesConcat(s, low, high);
    WritesTwo(Writes(s, low), high);
  }

  /** Each byte programmed at once. */
  function Direct(flash: seq<bv8>, ws: seq<Write>): (r: seq<bv8>)
    requires InFlash(ws, |flash|)
    ensures |r| == |flash|
    decreases |ws|
  {
    if ws == [] then flash
    else
      var n := |ws| - 1;
      var f := Direct(flash, ws[..n]);
      f[ws[n].addr := f[ws[n].addr] & ws[n].value]
  }

  lemma StaysUntouched(s: State, a: nat, v: bv8, b: nat)
    requires s.Valid() && a < |s.flash| && b < |s.flash| && b != a && Untouched(s, b)
    ensures Untouched(WriteByte(s, a, v), b)
  {
  }

  lemma {:induction false} UntouchedSoFar(s: State, ws: seq<Write>, b: nat)
    requires s.Valid() && InFlash(ws, |s.flash|) && b < |s.flash| && Untouched(s, b)
    requires forall i :: 0 <= i < |ws| ==> ws[i].addr != b
    ensures Untouched(Writes(s, ws), b)
    decreases |ws|
  {
    if ws != [] {
      var n := |ws| - 1;
      UntouchedSoFar(s, ws[..n], b);
      StaysUntouched(Writes(s, ws[..n]), ws[n].addr, ws[n].value, b);
    }
  }

  /**
   Gathering refines direct programming: writes to distinct addresses, in any order and with any page switches,
   leave the same flash once the last page is flushed.
   */
  lemma {:induction false} RefinesDirect(s: State, ws: seq<Write>)
    requires s.Valid() && InFlash(ws, |s.flash|) && Distinct(ws)
    requires forall i :: 0 <= i < |ws| ==> Untouched(s, ws[i].addr)
    ensures Image(Writes(s, ws)) == Flush(Writes(s, ws)).flash == Direct(Image(s), ws)
    decreases |ws|
  {
    FlushImage(Writes(s, ws));
    if ws != [] {
      var n := |ws| - 1;
      RefinesDirect(s, ws[..n]);
      UntouchedSoFar(s, ws[..n], ws[n].addr);
      WriteIsDirect(Writes(s, ws[..n]), ws[n].addr, ws[n].value);
    }
  }

  lemma {:induction false} DirectElsewhere(flash: seq<bv8>, ws: seq<Write>, b: nat)
    requires InFlash(ws, |flash|) && b < |flash|
    requires forall i :: 0 <= i < |ws| ==> ws[i].addr != b
    ensures Direct(flash, ws)[b] == flash[b]
    decreases |ws|
  {
    if ws != [] {
      DirectElsewhere(flash, ws[..|ws| - 1], b);
    }
  }

  lemma {:induction false} DirectAt(flash: seq<bv8>, ws: seq<Write>, i: nat)
    requires InFlash(ws, |flash|) && Distinct(ws) && i < |ws|
    ensures Direct(flash, ws)[ws[i].addr] == flash[ws[i].addr] & ws[i].value
    decreases |ws|
  {
    var n := |ws| - 1;
    if i < n {
      DirectAt(flash, ws[..n], i);
      assert ws[..n][i] == ws[i];
    } else {
      DirectElsewhere(flash, ws[..n], ws[n].addr);
    }
  }

  /** After lock_flash each address written holds its byte if it was erased before, and no other byte changed. */
  lemma WrittenAndLocked(s: State, ws: seq<Write>)
    requires s.Valid() && s.offset == NONE && InFlash(ws, |s.flash|) && Distinct(ws)
    ensures var f := Flush(Writes(s, ws)).flash;
            && (forall i :: 0 <= i < |ws| ==> f[ws[i].addr] == s.flash[ws[i].addr] & ws[i].value)
            && (forall i :: 0 <= i < |ws| && s.flash[ws[i].addr] == ERASED ==> f[ws[i].addr] == ws[i].value)
            && (forall b :: 0 <= b < |f| && (forall i :: 0 <= i < |ws| ==> ws[i].addr != b) ==> f[b] == s.flash[b])
  {
    FlushImage(s);
    RefinesDirect(s, ws);
    var f := Flush(Writes(s, ws)).flash;
    forall i | 0 <= i < |ws| ensures f[ws[i].addr] == s.flash[ws[i].addr] & ws[i].value {
      DirectAt(s.flash, ws, i);
    }
    forall b | 0 <= b < |f| && (forall i :: 0 <= i < |ws| ==> ws[i].addr != b) ensures f[b] == s.flash[b] {
      DirectElsewhere(s.flash, ws, b);
    }
  }

  // ----- How many pages are programmed ---------------------------------------------------------------------

  /** The bytes `vs` at consecutive addresses. */
  function Ascending(a: nat, vs: seq<bv8>): (ws: seq<Write>)
    ensures |ws| == |vs| && InFlash(ws, a + |vs|) && Distinct(ws)
  {
    seq(|vs|, i requires 0 <= i < |vs| => Write(a + i, vs[i]))
  }

  lemma PageOfAscending(a: nat, n: nat)
    requires a % 256 == 0
    ensures PageOf(a + n) == a + PageOf(n)
  {
    var q := a / 256;
    assert a == 256 * q;
  }

  /** `n` bytes have been written from the page boundary `a` on, `programs` pages having been programmed before. */
  predicate Ascended(t: State, a: nat, n: nat, programs: nat) {
    && t.programs == programs + n / 256 && t.pos == n % 256
    && t.offset == if n % 256 == 0 then NONE else a + PageOf(n)
  }

  lemma NextInPage(n: nat)
    ensures n % 256 < 255 ==> (n + 1) % 256 == n % 256 + 1 && (n + 1) / 256 == n / 256 && PageOf(n + 1) == PageOf(n)
    ensures n % 256 == 255 ==> (n + 1) % 256 == 0 && (n + 1) / 256 == n / 256 + 1
  {
  }

  lemma AscendOne(t: State, a: nat, n: nat, programs: nat, v: bv8)
    requires t.Valid() && a % 256 == 0 && a + n < |t.flash| && Ascended(t, a, n, programs)
    ensures Ascended(WriteByte(t, a + n, v), a, n + 1, programs)
  {
    NextInPage(n);
    PageOfAscending(a, n);
    PageInside(a + n, |t.flash|);
    var u := Select(t, a + n);
    assert u.pos == n % 256 && u.offset == a + PageOf(n) && u.programs == t.programs;
  }

  lemma AscendingSnoc(a: nat, vs: seq<bv8>)
    requires vs != []
    ensures var n := |vs| - 1; Ascending(a, vs) == Ascending(a, vs[..n]) + [Write(a + n, vs[n])]
  {
  }

  /** With no page open at first, `n` writes from a page boundary on program each page as it fills. */
  lemma {:induction false} AscendingProgress(s: State, a: nat, vs: seq<bv8>)
    requires s.Valid() && s.offset == NONE && s.pos == 0 && a % 256 == 0 && a + |vs| <= |s.flash|
    ensures Ascended(Writes(s, Ascending(a, vs)), a, |vs|, s.programs)
    decreases |vs|
  {
    if vs != [] {
      var n := |vs| - 1;
      AscendingProgress(s, a, vs[..n]);
      AscendingSnoc(a, vs);
      var t := Writes(s, Ascending(a, vs[..n]));
      WritesLast(s, Ascending(a, vs[..n]), Ascending(a, vs), a + n, vs[n]);
      AscendOne(t, a, n, s.programs, vs[n]);
    }
  }

  /** Ascending writes from a page boundary program exactly as many pages as they touch. */
  lemma PagesProgrammed(s: State, a: nat, vs: seq<bv8>)
    requires s.Valid() && s.offset == NONE && s.pos == 0 && a % 256 == 0 && a + |vs| <= |s.flash|
    ensures Flush(Writes(s, Ascending(a, vs))).programs == s.programs + (|vs| + 255) / 256
  {
    AscendingProgress(s, a, vs);
  }

  // ----- Erasing ---------------------------------------------------------------------------------------------

  function EraseRange(flash: seq<bv8>, base: nat, n: nat): (r: seq<bv8>)
    requires base + n <= |flash|
    ensures |r| == |flash|
  {
    seq(|flash|, a requires 0 <= a < |flash| => if base <= a < base + n then ERASED else flash[a])
  }

  /**
   Saving a file: the range is erased, its bytes are written in any order to distinct addresses, and the flash is
   locked.  The range then reads as what was written and is blank elsewhere; the rest of the flash is untouched.
   */
  lemma EraseWriteLock(s: State, base: nat, n: nat, ws: seq<Write>)
    requires s.Valid() && s.offset == NONE && base + n <= |s.flash| && InFlash(ws, base + n) && Distinct(ws)
    requires forall i :: 0 <= i < |ws| ==> base <= ws[i].addr
    ensures var f := Flush(Writes(s.(flash := EraseRange(s.flash, base, n)), ws)).flash;
            && |f| == |s.flash|
            && (forall i :: 0 <= i < |ws| ==> f[ws[i].addr] == ws[i].value)
            && (forall b :: base <= b < base + n && (forall i :: 0 <= i < |ws| ==> ws[i].addr != b) ==> f[b] == ERASED)
            && (forall b :: 0 <= b < |f| && !(base <= b < base + n) ==> f[b] == s.flash[b])
  {
    WrittenAndLocked(s.(flash := EraseRange(s.flash, base, n)), ws);
  }

  // ----- The code --------------------------------------------------------------------------------------------

  /** The place in flash of a mapped address. */
  function At(xipAddr: nat): (r: nat)
    requires XIP_BASE <= xipAddr
  {
    xipAddr - XIP_BASE
  }

  function LittleEndian16(xipAddr: nat, v: bv16): (ws: seq<Write>)
    requires XIP_BASE <= xipAddr
    ensures InFlash(ws, At(xipAddr) + 2) && Distinct(ws)
  {
    [Write(At(xipAddr), (v & 0xFF) as bv8), Write(At(xipAddr + 1), (v >> 8) as bv8)]
  }

  function LittleEndian32(xipAddr: nat, v: bv32): (ws: seq<Write>)
    requires XIP_BASE <= xipAddr
    ensures InFlash(ws, At(xipAddr) + 4) && Distinct(ws)
  {
    [Write(At(xipAddr), (v & 0xFF) as bv8), Write(At(xipAddr + 1), ((v >> 8) & 0xFF) as bv8),
     Write(At(xipAddr + 2), ((v >> 16) & 0xFF) as bv8), Write(At(xipAddr + 2 + 1), ((v >> 24) & 0xFF) as bv8)]
  }

  /** A word can be read back from its bytes. */
  lemma WordFromBytes(a: nat, v: bv32)
    requires XIP_BASE <= a
    ensures var ws := LittleEndian32(a, v);
            (ws[0].value as bv32) | ((ws[1].value as bv32) << 8) | ((ws[2].value as bv32) << 16)
              | ((ws[3].value as bv32) << 24) == v
  {
  }

  lemma HalfwordFromBytes(a: nat, v: bv16)
    requires XIP_BASE <= a
    ensures var ws := LittleEndian16(a, v); (ws[0].value as bv16) | ((ws[1].value as bv16) << 8) == v
  {
  }

  lemma HalfwordAddresses(a: nat, v: bv16)
    requires XIP_BASE <= a
    ensures var ws := LittleEndian16(a, v); ws[0].addr == a - 0x1000_0000 && ws[1].addr == a - 0x1000_0000 + 1
  {
  }

  lemma WordAddresses(a: nat, v: bv32)
    requires XIP_BASE <= a
    ensures var ws := LittleEndian32(a, v);
            forall i :: 0 <= i < 4 ==> ws[i].addr == a - 0x1000_0000 + i
  {
  }

  /** The `n` bytes from `x` on are erased, with nothing gathered for them. */
  predicate Clear(s: State, x: nat, n: nat)
    requires s.Valid() && x + n <= |s.flash|
  {
    forall b :: x <= b < x + n ==> Untouched(s, b) && Image(s)[b] == 0xFF
  }

  lemma WrittenToClear(s: State, ws: seq<Write>, x: nat, n: nat, i: nat)
    requires s.Valid() && x + n <= |s.flash| && Clear(s, x, n) && Distinct(ws) && i < |ws|
    requires forall k :: 0 <= k < |ws| ==> x <= ws[k].addr < x + n
    ensures InFlash(ws, |s.flash|) && Image(Writes(s, ws))[ws[i].addr] == ws[i].value
  {
    RefinesDirect(s, ws);
    DirectAt(Image(s), ws, i);
    assert 0xFF & ws[i].value == ws[i].value;
  }

  /** A halfword written to erased flash reads back, low byte first. */
  lemma HalfwordReadsBack(s: State, a: nat, v: bv16)
    requires s.Valid() && 0x1000_0000 <= a && a - 0x1000_0000 + 2 <= |s.flash| && Clear(s, a - 0x1000_0000, 2)
    ensures var f, x := Image(Writes(s, LittleEndian16(a, v))), a - 0x1000_0000;
            (f[x] as bv16) | ((f[x + 1] as bv16) << 8) == v
  {
    var ws := LittleEndian16(a, v);
    HalfwordFromBytes(a, v);
    HalfwordAddresses(a, v);
    hide LittleEndian16;
    hide Clear;
    WrittenToClear(s, ws, a - 0x1000_0000, 2, 0);
    WrittenToClear(s, ws, a - 0x1000_0000, 2, 1);
  }

  lemma WordReadsBack(s: State, a: nat, v: bv32)
    requires s.Valid() && 0x1000_0000 <= a && a - 0x1000_0000 + 4 <= |s.flash| && Clear(s, a - 0x1000_0000, 4)
    ensures var f, x := Image(Writes(s, LittleEndian32(a, v))), a - 0x1000_0000;
            (f[x] as bv32) | ((f[x + 1] as bv32) << 8) | ((f[x + 2] as bv32) << 16) | ((f[x + 3] as bv32) << 24) == v
  {
    var ws := LittleEndian32(a, v);
    WordFromBytes(a, v);
    WordAddresses(a, v);
    hide LittleEndian32;
    hide Clear;
    WrittenToClear(s, ws, a - 0x1000_0000, 4, 0);
    WrittenToClear(s, ws, a - 0x1000_0000, 4, 1);
    WrittenToClear(s, ws, a - 0x1000_0000, 4, 2);
    WrittenToClear(s, ws, a - 0x1000_0000, 4, 3);
  }

  class FlashWriter {
    var flash: seq<bv8>
    const pageBuf: array<bv8>
    var pageOffset: nat
    var pagePos: nat
    /** All of the above, and the number of pages programmed. */
    ghost var state: State

    ghost predicate Valid()
      reads this, pageBuf
    {
      && state.Valid() && flash == state.flash && pageBuf[..] == state.page
      && pageOffset == state.offset && pagePos == state.pos
    }

    constructor (flash: seq<bv8>)
      requires |flash| < NONE && |flash| % 256 == 0
      ensures Valid() && state.flash == flash && state.offset == NONE && state.pos == 0 && fresh(pageBuf)
    {
      this.flash := flash;
      pageBuf := new bv8[256](i => 0);
      pageOffset, pagePos := NONE, 0;
      state := State(flash, seq(256, i => 0), NONE, 0, 0);
    }

    /** flush_write_buffer; lock_flash is the same. */
    method FlushWriteBuffer()
      requires Valid()
      modifies this
      ensures Valid() && state == Flush(old(state))
      ensures flash == Image(old(state)) == Image(state)
    {
      if pageOffset != NONE {
        flash := Program(flash, pageOffset, pageBuf[..]);
        pageOffset := NONE;
        pagePos := 0;
      }
      state := Flush(state);
    }

    /** The page buffer set to the erased state. */
    method BlankPage()
      requires pageBuf.Length == 256
      modifies pageBuf
      ensures pageBuf[..] == Blank()
    {
      for i := 0 to 256
        invariant forall k :: 0 <= k < i ==> pageBuf[k] == ERASED
      {
        pageBuf[i] := ERASED;
      }
    }

    method SelectPage(a: nat)
      requires Valid() && a < |flash|
      modifies this, pageBuf
      ensures Valid() && state == Select(old(state), a)
    {
      var page := PageOf(a);
      if page != pageOffset {
        FlushWriteBuffer();
        BlankPage();
        pageOffset := page;
        pagePos := 0;
      }
      state := Select(old(state), a);
    }

    method WriteToFlashByte(xipAddr: nat, data: bv8) returns (result: nat)
      requires Valid() && XIP_BASE <= xipAddr < XIP_BASE + |state.flash|
      modifies this, pageBuf
      ensures Valid() && state == WriteByte(old(state), At(xipAddr), data) && result == 0
      ensures var x := xipAddr - 0x1000_0000;
              Image(state) == Image(old(state))[x := Below(old(state), x) & data]
    {
      var a := At(xipAddr);
      PageInside(a, |flash|);
      SelectPage(a);
      pageBuf[a % 256] := data;
      pagePos := pagePos + 1;
      state := state.(page := state.page[a - state.offset := data], pos := pagePos);
      if pagePos >= 256 {
        FlushWriteBuffer();
      }
      result := 0;
      assert Valid() && state == WriteByte(old(state), At(xipAddr), data);
      assert At(xipAddr) == xipAddr - 0x1000_0000;
      hide *;
      WriteImage(old(state), a, data);
    }

    /** Two consecutive bytes. */
    method WriteTwo(xipAddr: nat, b0: bv8, b1: bv8) returns (result: nat)
      requires Valid() && XIP_BASE <= xipAddr && xipAddr + 2 <= XIP_BASE + |state.flash|
      modifies this, pageBuf
      ensures Valid() && state == WritePair(old(state), Write(At(xipAddr), b0), Write(At(xipAddr + 1), b1))
              && result == 0
    {
      var r0 := WriteToFlashByte(xipAddr, b0);
      var r1 := WriteToFlashByte(xipAddr + 1, b1);
      result := r0 + r1;
    }

    method WriteToFlashHalfword(xipAddr: nat, data: bv16) returns (result: nat)
      requires Valid() && XIP_BASE <= xipAddr && xipAddr + 2 <= XIP_BASE + |state.flash|
      modifies this, pageBuf
      ensures Valid() && state == Writes(old(state), LittleEndian16(xipAddr, data)) && result == 0
      ensures var f, x := Image(state), xipAddr - 0x1000_0000;
              Clear(old(state), x, 2) ==> (f[x] as bv16) | ((f[x + 1] as bv16) << 8) == data
    {
      if Clear(state, xipAddr - 0x1000_0000, 2) {
        HalfwordReadsBack(state, xipAddr, data);
      }
      hide Image;
      hide Clear;
      WritesTwo(state, LittleEndian16(xipAddr, data));
      result := WriteTwo(xipAddr, (data & 0xFF) as bv8, (data >> 8) as bv8);
    }

    method WriteToFlashWord(xipAddr: nat, data: bv32) returns (result: nat)
      requires Valid() && XIP_BASE <= xipAddr && xipAddr + 4 <= XIP_BASE + |state.flash|
      modifies this, pageBuf
      ensures Valid() && state == Writes(old(state), LittleEndian32(xipAddr, data)) && result == 0
      ensures var f, x := Image(state), xipAddr - 0x1000_0000;
              Clear(old(state), x, 4) ==>
                (f[x] as bv32) | ((f[x + 1] as bv32) << 8) | ((f[x + 2] as bv32) << 16) | ((f[x + 3] as bv32) << 24)
                == data
    {
      if Clear(state, xipAddr - 0x1000_0000, 4) {
        WordReadsBack(state, xipAddr, data);
      }
      hide Image;
      hide Clear;
      WritesFour(state, LittleEndian32(xipAddr, data));
      result := WriteFour(xipAddr, (data & 0xFF) as bv8, ((data >> 8) & 0xFF) as bv8,
                          ((data >> 16) & 0xFF) as bv8, ((data >> 24) & 0xFF) as bv8);
    }

    method WriteFour(xipAddr: nat, b0: bv8, b1: bv8, b2: bv8, b3: bv8) returns (result: nat)
      requires Valid() && XIP_BASE <= xipAddr && xipAddr + 4 <= XIP_BASE + |state.flash|
      modifies this, pageBuf
      ensures Valid() && result == 0
      ensures state == WritePair(WritePair(old(state), Write(At(xipAddr), b0), Write(At(xipAddr + 1), b1)),
                                 Write(At(xipAddr + 2), b2), Write(At(xipAddr + 2 + 1), b3))
    {
      var r0 := WriteTwo(xipAddr, b0, b1);
      var r1 := WriteTwo(xipAddr + 2, b2, b3);
      result := r0 + r1;
    }

    /** The bytes from `offset` on; nothing in the page buffer changes. */
    method EraseSector(offset: nat)
      requires Valid() && offset + 4096 <= |flash|
      modifies `flash, `state
      ensures Valid() && state == old(state).(flash := EraseRange(old(state).flash, offset, 4096))
    {
      flash := EraseRange(flash, offset, 4096);
      state := state.(flash := flash);
    }

    method MassEraseFlashSector(index: nat)
      requires Valid() && (index + 1) * 4096 <= |flash|
      modifies `flash, `state
      ensures Valid() && state == old(state).(flash := EraseRange(old(state).flash, index * 4096, 4096))
      ensures |flash| == old(|flash|)
      ensures forall a :: 0 <= a < |flash| ==>
                flash[a] == if index * 4096 <= a < index * 4096 + 4096 then 0xFF else old(flash)[a]
    {
      EraseSector(index * 4096);
    }

    method MassEraseConfigStorage()
      requires Valid() && STORAGE + 0x4000 <= |flash|
      modifies `flash, `state
      ensures Valid() && state == old(state).(flash := EraseRange(old(state).flash, STORAGE, 0x4000))
      ensures |flash| == old(|flash|)
      ensures forall a :: 0 <= a < |flash| ==>
                flash[a] == if 0x3F_C000 <= a < 0x3F_C000 + 0x4000 then 0xFF else old(flash)[a]
    {
      EraseFour(STORAGE);
    }

    method MassEraseUploadStorage()
      requires Valid() && UPLOAD + 0x4000 <= |flash|
      modifies `flash, `state
      ensures Valid() && state == old(state).(flash := EraseRange(old(state).flash, UPLOAD, 0x4000))
      ensures |flash| == old(|flash|)
      ensures forall a :: 0 <= a < |flash| ==>
                flash[a] == if 0x3F_8000 <= a < 0x3F_8000 + 0x4000 then 0xFF else old(flash)[a]
    {
      EraseFour(UPLOAD);
    }

    /** The loop of both: 16 KB are four sectors. */
    method EraseFour(base: nat)
      requires Valid() && base + 0x4000 <= |flash|
      modifies `flash, `state
      ensures Valid() && state == old(state).(flash := EraseRange(old(state).flash, base, 0x4000))
    {
      for i := 0 to 4
        invariant Valid() && |flash| == old(|flash|)
        invariant state == old(state).(flash := EraseRange(old(state).flash, base, i * 4096))
      {
        EraseSector(base + i * 4096);
      }
    }
  }
}
