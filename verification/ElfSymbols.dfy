/** kernel/src/elf.rs, `relocate_module`: what the finished image satisfies, told from the
    relocation entries, the symbol table and the layout. */
module ElfSymbols {
  import opened Prelude
  import opened Bits
  import opened ElfReloc
  import opened ElfLayout
  import opened ElfModule

  // ----- Sections ---------------------------------------------------------------------------

  /** A loaded section is aligned as its header asks, where 0 and 1 ask for nothing, and wastes less
      than that. */
  lemma {:induction false} AlignedAsAsked(shdrs: seq<Shdr>, load: nat, i: nat)
    requires NoWrap(shdrs, load) && Pow2Aligned(shdrs) && i < |shdrs| && shdrs[i].Loaded()
    ensures shdrs[i].addralign >= 2 ==>
      && AddrOf(shdrs, load, i) % shdrs[i].addralign == 0
      && CursorAt(shdrs, load, i) <= AddrOf(shdrs, load, i) < CursorAt(shdrs, load, i) + shdrs[i].addralign
    ensures shdrs[i].addralign <= 1 ==> AddrOf(shdrs, load, i) == CursorAt(shdrs, load, i)
  {
    AlignPow2(CursorAt(shdrs, load, i), shdrs[i].Align());
  }

  /** What the buffer holds in the range of a loaded section: the section's bytes if it lies inside
      the file and fits the buffer, and otherwise what was there. */
  lemma {:induction false} SectionBytes(shdrs: seq<Shdr>, load: nat, data: seq<byte>, buf: seq<byte>, i: nat, x: nat)
    requires NoWrap(shdrs, load) && Pow2Aligned(shdrs) && i < |shdrs| && shdrs[i].Loaded() && x < shdrs[i].size
    requires forall i :: 0 <= i < |shdrs| ==> load <= AddrOf(shdrs, load, i)
    requires AddrOf(shdrs, load, i) - load + x < |buf|
    ensures Copied(shdrs, load, data, buf, |shdrs|)[AddrOf(shdrs, load, i) - load + x]
         == if shdrs[i].offset + shdrs[i].size <= |data| && AddrOf(shdrs, load, i) - load + shdrs[i].size <= |buf|
            then data[shdrs[i].offset + x] else buf[AddrOf(shdrs, load, i) - load + x]
  {
    if shdrs[i].offset + shdrs[i].size <= |data| && AddrOf(shdrs, load, i) - load + shdrs[i].size <= |buf| {
      CopiedContents(shdrs, load, data, buf, |shdrs|, i, x);
    } else {
      Untouched(shdrs, load, data, buf, |shdrs|, i, x);
    }
  }

  lemma {:induction false} Untouched(shdrs: seq<Shdr>, load: nat, data: seq<byte>, buf: seq<byte>, n: nat, i: nat, x: nat)
    requires NoWrap(shdrs, load) && Pow2Aligned(shdrs) && n <= |shdrs| && i < |shdrs| && shdrs[i].Loaded() && x < shdrs[i].size
    requires forall i :: 0 <= i < |shdrs| ==> load <= AddrOf(shdrs, load, i)
    requires AddrOf(shdrs, load, i) - load + x < |buf|
    requires shdrs[i].offset + shdrs[i].size > |data| || AddrOf(shdrs, load, i) - load + shdrs[i].size > |buf|
    ensures Copied(shdrs, load, data, buf, n)[AddrOf(shdrs, load, i) - load + x] == buf[AddrOf(shdrs, load, i) - load + x]
  {
    if n > 0 {
      Untouched(shdrs, load, data, buf, n - 1, i, x);
      LayoutDisjoint(shdrs, load);
      CopyStep(shdrs, load, data, buf, n, AddrOf(shdrs, load, i) - load + x);
    }
  }

  /** Section n - 1 changes a byte only if it is loaded, inside the file, fits the buffer and covers it. */
  lemma {:induction false} CopyStep(shdrs: seq<Shdr>, load: nat, data: seq<byte>, buf: seq<byte>, n: nat, y: nat)
    requires 0 < n <= |shdrs| && AlignsOk(shdrs) && y < |buf|
    requires forall i :: 0 <= i < |shdrs| ==> load <= AddrOf(shdrs, load, i)
    ensures var sh, at := shdrs[n - 1], AddrOf(shdrs, load, n - 1) - load;
      Copied(shdrs, load, data, buf, n)[y] == Copied(shdrs, load, data, buf, n - 1)[y]
      || (sh.Loaded() && sh.offset + sh.size <= |data| && at + sh.size <= |buf| && at <= y < at + sh.size)
  {
    var b, sh := Copied(shdrs, load, data, buf, n - 1), shdrs[n - 1];
    if sh.Loaded() && sh.offset + sh.size <= |data| {
      PatchAt(b, AddrOf(shdrs, load, n - 1) - load, data[sh.offset..sh.offset + sh.size], y);
    }
  }

  // ----- Entries and symbols -------------------------------------------------------------

  /** Entry `k` of the relocation table in section `i`; tables for missing sections are ignored. */
  ghost predicate Entry(m: Image, i: nat, k: nat) {
    && i < |m.shdrs| && m.shdrs[i].kind == SHT_RELA && m.shdrs[i].info < |m.shdrs|
    && k < m.shdrs[i].size / RELA_SIZE
  }

  ghost function RelaOf(m: Image, i: nat, k: nat): Rela
    requires TablesInFile(m) && Entry(m, i, k)
  {
    assert IsTable(m, i);
    ReadRela(m.data, m.shdrs[i].offset + k * RELA_SIZE)
  }

  /** P: the address of the field, in the section that the table is for. */
  ghost function PlaceOf(m: Image, i: nat, k: nat): nat
    requires Prepared(m) && Entry(m, i, k)
  {
    AddrOf(m.shdrs, m.load, m.shdrs[i].info) + RelaOf(m, i, k).offset
  }

  /** The symbol of an entry has the address S: that of its own section plus its value, or the
      export of its name when it is in no section. */
  ghost predicate HasValue(m: Image, i: nat, k: nat, S: nat)
    requires Prepared(m) && Entry(m, i, k)
  {
    RelaOf(m, i, k).sym < |m.syms| &&
    var s := m.syms[RelaOf(m, i, k).sym];
    if s.shndx == 0 then ReadStr(m.env, m.strtab, s.name) in m.env.exports
      && S == m.env.exports[ReadStr(m.env, m.strtab, s.name)]
    else s.shndx < |m.shdrs| && S == AddrOf(m.shdrs, m.load, s.shndx) + s.value
  }

  /** The symbol has no address, and its entry is skipped: no such symbol, or no such section. */
  ghost predicate Ignored(m: Image, i: nat, k: nat)
    requires Prepared(m) && Entry(m, i, k)
  {
    RelaOf(m, i, k).sym >= |m.syms| || m.syms[RelaOf(m, i, k).sym].shndx >= |m.shdrs|
  }

  ghost function Width(kind: nat): nat { if kind == R_64 then 8 else 4 }

  /** The relocation equation of an entry whose symbol is at S can be solved, or asks for nothing. */
  ghost predicate Solvable(m: Image, i: nat, k: nat, S: nat)
    requires Prepared(m) && Entry(m, i, k)
  {
    var rela := RelaOf(m, i, k);
    || rela.kind == R_NONE
    || (S < U64 && PlaceOf(m, i, k) < U64 && exists field :: AbiHolds(rela.kind, S, PlaceOf(m, i, k), rela.addend, field))
  }

  /** The field of entry (i, k) covers byte `x` of the buffer. */
  ghost predicate Touches(m: Image, i: nat, k: nat, x: nat)
    requires Prepared(m) && Entry(m, i, k)
  {
    PlaceOf(m, i, k) - m.load <= x < PlaceOf(m, i, k) - m.load + Width(RelaOf(m, i, k).kind)
  }

  ghost predicate Later(i: nat, k: nat, i': nat, k': nat) { i < i' || (i == i' && k < k') }

  // ----- Entries and jobs ----------------------------------------------------------------

  ghost function JobAt(m: Image, i: nat, k: nat): (j: Job)
    requires Prepared(m) && Entry(m, i, k)
  {
    JobOf(m, m.shdrs[i].info, RelaOf(m, i, k))
  }

  lemma {:induction false} ValueIsJob(m: Image, i: nat, k: nat, S: nat)
    requires Prepared(m) && Entry(m, i, k) && HasValue(m, i, k, S)
    ensures var rela := RelaOf(m, i, k);
      JobAt(m, i, k) == Reloc(PlaceOf(m, i, k) - m.load, rela.kind, S, PlaceOf(m, i, k), rela.addend)
  {}

  lemma {:induction false} JobIsValue(m: Image, i: nat, k: nat)
    requires Prepared(m) && Entry(m, i, k)
    ensures JobAt(m, i, k).Reloc? <==> HasValue(m, i, k, if JobAt(m, i, k).Reloc? then JobAt(m, i, k).sym else 0)
    ensures JobAt(m, i, k).Skip? <==> Ignored(m, i, k)
  {}

  lemma {:induction false} JobsMore(m: Image, i: nat, k: nat)
    requires Prepared(m) && Entry(m, i, k)
    ensures JobsOk(Jobs(m, i + 1)) && |Jobs(m, i)| + k < |Jobs(m, i + 1)| && Jobs(m, i + 1)[|Jobs(m, i)| + k] == JobAt(m, i, k)
  {
    assert IsTable(m, i);
    JobsNext(m, i);
  }

  /** The number of an entry's job. */
  ghost function Index(m: Image, i: nat, k: nat): (n: nat)
    requires Prepared(m) && Entry(m, i, k)
    ensures n < |Jobs(m, |m.shdrs|)| && Jobs(m, |m.shdrs|)[n] == JobAt(m, i, k) && JobOk(JobAt(m, i, k))
  {
    JobsMore(m, i, k);
    JobsPrefix(m, i + 1, |m.shdrs|);
    |Jobs(m, i)| + k
  }

  /** What an entry writes. */
  ghost function WriteAt(m: Image, i: nat, k: nat): (w: Write)
    requires Prepared(m) && Entry(m, i, k)
    ensures Index(m, i, k) < |AllWrites(m)| && AllWrites(m)[Index(m, i, k)] == w
  {
    assert JobOk(Jobs(m, |m.shdrs|)[Index(m, i, k)]);
    WriteOf(JobAt(m, i, k))
  }

  /** Every job is some entry's. */
  lemma {:induction false} JobEntry(m: Image, n: nat, top: nat) returns (i: nat, k: nat)
    requires Prepared(m) && top <= |m.shdrs| && n < |Jobs(m, top)|
    ensures i < top && Entry(m, i, k) && n == Index(m, i, k)
  {
    if IsTable(m, top - 1) && n >= |Jobs(m, top - 1)| {
      i, k := top - 1, n - |Jobs(m, top - 1)|;
    } else {
      i, k := JobEntry(m, n, top - 1);
    }
  }

  lemma {:induction false} IndexOrder(m: Image, i: nat, k: nat, i': nat, k': nat)
    requires Prepared(m) && Entry(m, i, k) && Entry(m, i', k') && Later(i, k, i', k')
    ensures Index(m, i, k) < Index(m, i', k')
  {
    if i < i' {
      JobsMore(m, i, k);
      JobsPrefix(m, i + 1, i');
    }
  }

  lemma {:induction false} OrderIndex(m: Image, i: nat, k: nat, i': nat, k': nat)
    requires Prepared(m) && Entry(m, i, k) && Entry(m, i', k') && Index(m, i, k) < Index(m, i', k')
    ensures Later(i, k, i', k')
  {
    if Later(i', k', i, k) { IndexOrder(m, i', k', i, k); }
  }

  lemma {:induction false} PutShape(j: Job)
    requires JobOk(j) && WriteOf(j).Put?
    ensures j.Reloc? && WriteOf(j).off == j.off && |WriteOf(j).bytes| == Width(j.kind)
  {}

  lemma {:induction false} PutSolves(j: Job)
    requires JobOk(j) && j.Reloc? && j.kind != R_NONE
    ensures WriteOf(j).Put? <==> exists field :: AbiHolds(j.kind, j.sym, j.pc, j.addend, field)
    ensures WriteOf(j).Put? ==> AbiHolds(j.kind, j.sym, j.pc, j.addend, WriteOf(j).bytes)
    ensures !WriteOf(j).Put? ==> WriteOf(j) == Stop(if Supported(j.kind) then Overflow32 else UnsupportedReloc(j.kind))
  {
    OverflowIff(j.kind, j.sym, j.pc, j.addend);
    if WriteOf(j).Put? {
      PutSound(j);
    } else if field :| AbiHolds(j.kind, j.sym, j.pc, j.addend, field) {
      FieldComplete(j.kind, j.sym, j.pc, j.addend, field);
    }
  }

  // ----- Every field is solved -------------------------------------------------------------

  /** No entry after (i, k) touches the field of (i, k). */
  ghost predicate LastToTouch(m: Image, i: nat, k: nat)
    requires Prepared(m) && Entry(m, i, k)
  {
    forall i', k', x :: Entry(m, i', k') && Later(i, k, i', k') && Touches(m, i, k, x) ==> !Touches(m, i', k', x)
  }

  lemma {:induction false} NotOverwritten(m: Image, i: nat, k: nat, i': nat, k': nat, len: nat)
    requires Prepared(m) && Entry(m, i, k) && LastToTouch(m, i, k) && Entry(m, i', k') && Later(i, k, i', k')
    ensures Apart(WriteAt(m, i, k), WriteAt(m, i', k'), len)
  {
    forall x: nat
      ensures !(Covers(WriteAt(m, i, k), len, x) && Covers(WriteAt(m, i', k'), len, x))
    {
      WriteTouches(m, i, k, len, x);
      WriteTouches(m, i', k', len, x);
    }
  }

  lemma {:induction false} WriteTouches(m: Image, i: nat, k: nat, len: nat, x: nat)
    requires Prepared(m) && Entry(m, i, k)
    ensures Covers(WriteAt(m, i, k), len, x) ==> Touches(m, i, k, x)
  {
    var j := JobAt(m, i, k);
    JobIsValue(m, i, k);
    if WriteAt(m, i, k).Put? {
      PutShape(j);
      ValueIsJob(m, i, k, j.sym);
    }
  }

  /** Once written, the field of an entry is not overwritten. */
  lemma {:induction false} LaterApart(m: Image, i: nat, k: nat, n: nat, len: nat)
    requires Prepared(m) && Entry(m, i, k) && LastToTouch(m, i, k) && Index(m, i, k) < n < |AllWrites(m)|
    ensures Apart(WriteAt(m, i, k), AllWrites(m)[n], len)
  {
    var i', k' := JobEntry(m, n, |m.shdrs|);
    OrderIndex(m, i, k, i', k');
    NotOverwritten(m, i, k, i', k', len);
    assert WriteAt(m, i', k') == AllWrites(m)[n];
  }

  /** The bytes of an entry's field. */
  ghost function FieldAt(m: Image, image: seq<byte>, i: nat, k: nat): seq<byte>
    requires Prepared(m) && Entry(m, i, k) && m.load <= PlaceOf(m, i, k)
    requires PlaceOf(m, i, k) - m.load + Width(RelaOf(m, i, k).kind) <= |image|
  {
    image[PlaceOf(m, i, k) - m.load..PlaceOf(m, i, k) - m.load + Width(RelaOf(m, i, k).kind)]
  }

  /** In the finished image the field of every entry solves its relocation equation, with P the
      place in the patched section and S the address of the symbol: in the symbol's own section,
      or the kernel's export.  Only the last of several entries for one field counts, and a field
      beyond the buffer is skipped. */
  lemma {:induction false} RelocationSolved(m: Image, buf: seq<byte>, i: nat, k: nat, S: nat)
    requires Sound(m) && Finished(m, buf).0.Ok? && Entry(m, i, k) && HasValue(m, i, k, S)
    requires RelaOf(m, i, k).kind != R_NONE && LastToTouch(m, i, k)
    requires PlaceOf(m, i, k) - m.load + Width(RelaOf(m, i, k).kind) <= |buf|
    ensures S < U64 && m.load <= PlaceOf(m, i, k) < U64
    ensures var rela, P := RelaOf(m, i, k), PlaceOf(m, i, k);
      AbiHolds(rela.kind, S, P, rela.addend, FieldAt(m, Finished(m, buf).1, i, k))
  {
    var n, j := Index(m, i, k), JobAt(m, i, k);
    ValueIsJob(m, i, k, S);
    var ws := AllWrites(m);
    assert ws[n] == WriteAt(m, i, k);
    NoStop(ws, Copied(m.shdrs, m.load, m.data, buf, |m.shdrs|), n);
    PutSolves(j);
    PutShape(j);
    forall n' | n < n' < |ws|
      ensures Apart(ws[n], ws[n'], |buf|)
    {
      LaterApart(m, i, k, n', |buf|);
    }
    AppliedField(m, buf, n);
  }

  lemma {:induction false} NoStop(ws: seq<Write>, buf: seq<byte>, n: nat)
    requires Run(ws, buf).0.Ok? && n < |ws|
    ensures !ws[n].Stop?
  {
    if n < |ws| - 1 { NoStop(ws[..|ws| - 1], buf, n); }
  }

  // ----- When a module relocates -------------------------------------------------------------

  /** Nothing is wrong with an entry: it is ignored, or its symbol has an address and its equation
      a solution. */
  ghost predicate Fine(m: Image, i: nat, k: nat)
    requires Prepared(m) && Entry(m, i, k)
  {
    Ignored(m, i, k) || exists S: nat :: HasValue(m, i, k, S) && Solvable(m, i, k, S)
  }

  /** The complaint about an entry that is not fine. */
  ghost predicate Complains(m: Image, i: nat, k: nat, e: RelocError)
    requires Prepared(m) && Entry(m, i, k)
  {
    var rela := RelaOf(m, i, k);
    if exists S: nat :: HasValue(m, i, k, S)
    then e == if Supported(rela.kind) then Overflow32 else UnsupportedReloc(rela.kind)
    else rela.sym < |m.syms| && e == MissingSymbol(ReadStr(m.env, m.strtab, m.syms[rela.sym].name))
  }

  lemma {:induction false} FineIff(m: Image, i: nat, k: nat)
    requires Prepared(m) && Entry(m, i, k)
    ensures Fine(m, i, k) <==> !WriteAt(m, i, k).Stop?
    ensures WriteAt(m, i, k).Stop? ==> Complains(m, i, k, WriteAt(m, i, k).error)
  {
    JobIsValue(m, i, k);
    var n, j := Index(m, i, k), JobAt(m, i, k);
    if j.Reloc? {
      ValueIsJob(m, i, k, j.sym);
      if j.kind != R_NONE { PutSolves(j); }
      assert HasValue(m, i, k, j.sym);
      assert forall S: nat :: HasValue(m, i, k, S) ==> S == j.sym;
    } else {
      NoValue(m, i, k);
    }
  }

  lemma {:induction false} NoValue(m: Image, i: nat, k: nat)
    requires Prepared(m) && Entry(m, i, k) && !JobAt(m, i, k).Reloc?
    ensures forall S: nat :: !HasValue(m, i, k, S)
    ensures JobAt(m, i, k).Missing? ==>
      RelaOf(m, i, k).sym < |m.syms| && !Ignored(m, i, k)
      && JobAt(m, i, k) == Missing(ReadStr(m.env, m.strtab, m.syms[RelaOf(m, i, k).sym].name))
  {
    forall S: nat
      ensures !HasValue(m, i, k, S)
    {
      if HasValue(m, i, k, S) { ValueIsJob(m, i, k, S); }
    }
  }

  /** The first `n` writes do not stop. */
  ghost predicate Quietly(ws: seq<Write>, n: nat)
    requires n <= |ws|
  {
    forall i :: 0 <= i < n ==> !ws[i].Stop?
  }

  lemma {:induction false} RunOkIff(ws: seq<Write>, buf: seq<byte>)
    ensures Run(ws, buf).0.Ok? <==> Quietly(ws, |ws|)
    ensures Run(ws, buf).0.Err? ==> exists n :: FirstStop(ws, n, Run(ws, buf).0.error)
  {
    if ws != [] {
      var k := |ws| - 1;
      RunOkIff(ws[..k], buf);
      if Run(ws[..k], buf).0.Err? {
        var n :| FirstStop(ws[..k], n, Run(ws[..k], buf).0.error);
        assert FirstStop(ws, n, Run(ws, buf).0.error);
      } else if ws[k].Stop? {
        assert FirstStop(ws, k, Run(ws, buf).0.error);
      }
    }
  }

  ghost predicate FirstStop(ws: seq<Write>, n: nat, e: RelocError) {
    n < |ws| && Quietly(ws, n) && ws[n] == Stop(e)
  }

  /** A module relocates without an error if and only if every entry is fine; otherwise the error
      is the complaint about the first entry that is not. */
  lemma {:induction false} RelocatesIff(m: Image, buf: seq<byte>)
    requires Sound(m)
    ensures Finished(m, buf).0.Ok? <==> forall i, k :: Entry(m, i, k) ==> Fine(m, i, k)
    ensures Finished(m, buf).0.Err? ==> exists i, k :: FirstWrong(m, i, k, Finished(m, buf).0.error)
  {
    var ws := AllWrites(m);
    RunOkIff(ws, Copied(m.shdrs, m.load, m.data, buf, |m.shdrs|));
    forall i: nat, k: nat | Entry(m, i, k)
      ensures Fine(m, i, k) <==> !ws[Index(m, i, k)].Stop?
    {
      FineIff(m, i, k);
      assert WriteAt(m, i, k) == ws[Index(m, i, k)];
    }
    if Finished(m, buf).0.Err? {
      var n :| FirstStop(ws, n, Finished(m, buf).0.error);
      var i, k := JobEntry(m, n, |m.shdrs|);
      FirstIsFirst(m, i, k, Finished(m, buf).0.error);
    }
  }

  ghost predicate FirstWrong(m: Image, i: nat, k: nat, e: RelocError)
    requires Prepared(m)
  {
    && Entry(m, i, k) && !Fine(m, i, k) && Complains(m, i, k, e)
    && forall i', k' :: Entry(m, i', k') && Later(i', k', i, k) ==> Fine(m, i', k')
  }

  lemma {:induction false} FirstIsFirst(m: Image, i: nat, k: nat, e: RelocError)
    requires Prepared(m) && Entry(m, i, k) && FirstStop(AllWrites(m), Index(m, i, k), e)
    ensures FirstWrong(m, i, k, e)
  {
    FineIff(m, i, k);
    assert WriteAt(m, i, k) == Stop(e);
    forall i': nat, k': nat | Entry(m, i', k') && Later(i', k', i, k)
      ensures Fine(m, i', k')
    {
      FineIff(m, i', k');
      IndexOrder(m, i', k', i, k);
      assert WriteAt(m, i', k') == AllWrites(m)[Index(m, i', k')];
    }
  }

  // ----- Following a relocated pointer ----------------------------------------------------------

  /** The address that the field of a 64-bit or of a relative relocation at P stands for. */
  ghost function Pointed(kind: nat, P: nat, field: seq<byte>): nat {
    if kind == R_64 then Le(field) else (P + (if Le(field) < U32 then SignExt32(Le(field)) else 0)) % U64
  }

  lemma {:induction false} PointedIs(kind: nat, S: u64, P: u64, addend: i64, field: seq<byte>)
    requires kind in {R_64, R_PC32, R_PLT32} && AbiHolds(kind, S, P, addend, field) && 0 <= S + addend < U64
    ensures Pointed(kind, P, field) == S + addend
  {
    if kind == R_64 {
      UnsignedBytes(field, S + addend);
    } else {
      SameResidue(P + SignExt32(Le(field)), S + addend);
    }
  }

  lemma {:induction false} SameResidue(x: int, y: int)
    requires (x - y) % U64 == 0 && 0 <= y < U64
    ensures x % U64 == y
  {
    ModMod(x);
    ResidueIs(x % U64, y);
  }

  /** Entry (i, k) points `x` bytes into section `j`, which is in the image: its symbol lies there. */
  ghost predicate PointsInto(m: Image, len: nat, i: nat, k: nat, j: nat, x: nat)
    requires Sound(m) && Entry(m, i, k)
  {
    var rela := RelaOf(m, i, k);
    && rela.kind in {R_64, R_PC32, R_PLT32} && rela.sym < |m.syms|
    && 0 < j == m.syms[rela.sym].shndx < |m.shdrs| && CopiedAt(m.shdrs, m.load, m.data, len, j)
    && x == m.syms[rela.sym].value + rela.addend && x < m.shdrs[j].size
  }

  /** Following a relocated pointer in the finished image leads to the byte of the file that the
      symbol and the addend name, unless another relocation covers that byte. */
  lemma {:induction false} PointerLands(m: Image, buf: seq<byte>, i: nat, k: nat, j: nat, x: nat)
    requires Sound(m) && Finished(m, buf).0.Ok? && Entry(m, i, k) && Pow2Aligned(m.shdrs)
    requires PointsInto(m, |buf|, i, k, j, x) && LastToTouch(m, i, k)
    requires m.load <= PlaceOf(m, i, k) && PlaceOf(m, i, k) - m.load + Width(RelaOf(m, i, k).kind) <= |buf|
    requires Uncovered(m, |buf|, AddrOf(m.shdrs, m.load, j) - m.load + x)
    ensures var image := Finished(m, buf).1;
      var at := Pointed(RelaOf(m, i, k).kind, PlaceOf(m, i, k), FieldAt(m, image, i, k)) - m.load;
      0 <= at < |image| && image[at] == m.data[m.shdrs[j].offset + x]
  {
    PointerIs(m, buf, i, k, j, x);
    ImageBytes(m, buf, j, x);
  }

  lemma {:induction false} PointerIs(m: Image, buf: seq<byte>, i: nat, k: nat, j: nat, x: nat)
    requires Sound(m) && Finished(m, buf).0.Ok? && Entry(m, i, k)
    requires PointsInto(m, |buf|, i, k, j, x) && LastToTouch(m, i, k)
    requires m.load <= PlaceOf(m, i, k) && PlaceOf(m, i, k) - m.load + Width(RelaOf(m, i, k).kind) <= |buf|
    ensures Pointed(RelaOf(m, i, k).kind, PlaceOf(m, i, k), FieldAt(m, Finished(m, buf).1, i, k)) == AddrOf(m.shdrs, m.load, j) + x
  {
    var rela, P := RelaOf(m, i, k), PlaceOf(m, i, k);
    var S := AddrOf(m.shdrs, m.load, j) + m.syms[rela.sym].value;
    assert HasValue(m, i, k, S);
    RelocationSolved(m, buf, i, k, S);
    EndsBelow(m, j, x);
    PointedIs(rela.kind, S, P, rela.addend, FieldAt(m, Finished(m, buf).1, i, k));
  }

  lemma {:induction false} EndsBelow(m: Image, j: nat, x: nat)
    requires Sound(m) && j < |m.shdrs| && m.shdrs[j].Loaded() && x < m.shdrs[j].size
    ensures AddrOf(m.shdrs, m.load, j) + x < U64
  {}

  // ----- The tables the image is read from ------------------------------------------------------

  /** `find_symtab`: the first symbol table, and the string table it links to. */
  lemma {:induction false} SymtabIsFirst(data: seq<byte>, shOff: nat, shdrs: seq<Shdr>, i: nat)
    requires i < |shdrs| && shdrs[i].kind == SHT_SYMTAB && forall j :: 0 <= j < i ==> shdrs[j].kind != SHT_SYMTAB
    ensures FindSymtab(data, shOff, shdrs) == match ShdrAt(data, shOff, shdrs[i].link)
      case Ok(str) => Ok((shdrs[i], str))
      case Err(_) => Err(BadStrtab)
  {
    if i > 0 { SymtabIsFirst(data, shOff, shdrs[1..], i - 1); }
  }

  lemma {:induction false} NoSymtab(data: seq<byte>, shOff: nat, shdrs: seq<Shdr>)
    requires forall j :: 0 <= j < |shdrs| ==> shdrs[j].kind != SHT_SYMTAB
    ensures FindSymtab(data, shOff, shdrs) == Err(BadSectionTable)
  {
    if shdrs != [] { NoSymtab(data, shOff, shdrs[1..]); }
  }

  /** The string table: the bytes of its section, or nothing when it runs past the file. */
  lemma {:induction false} StrtabIs(data: seq<byte>, sh: Shdr, bytes: seq<byte>)
    ensures HoldsAt(data, sh.offset, bytes) && |bytes| == sh.size ==> Strtab(data, sh) == bytes
    ensures sh.offset + sh.size > |data| ==> Strtab(data, sh) == []
  {}

  /** A symbol that `find_symbol` may return. */
  ghost predicate Candidate(env: ElfModule.Env, strtab: seq<byte>, s: Sym, name: seq<byte>, count: nat) {
    s.shndx < count && ReadStr(env, strtab, s.name) == name
  }

  /** `find_symbol`: the address, in its own section, of the first symbol of that name. */
  lemma {:induction false} SymbolIsFirst(env: ElfModule.Env, strtab: seq<byte>, syms: seq<Sym>, name: seq<byte>,
                                         addrs: seq<nat>, i: nat)
    requires i <= |syms| && forall j :: 0 <= j < i ==> !Candidate(env, strtab, syms[j], name, |addrs|)
    requires i < |syms| ==> Candidate(env, strtab, syms[i], name, |addrs|)
    ensures FindSymbol(env, strtab, syms, name, addrs)
         == if i < |syms| then [(addrs[syms[i].shndx] + syms[i].value) % U64] else []
  {
    if i > 0 {
      assert !Candidate(env, strtab, syms[0], name, |addrs|);
      SymbolIsFirst(env, strtab, syms[1..], name, addrs, i - 1);
    }
  }

  /** `read_str`: a valid string stored at `|pre|` with its final NUL is read back, whatever follows. */
  lemma {:induction false} NameRoundTrip(env: ElfModule.Env, pre: seq<byte>, name: seq<byte>, post: seq<byte>)
    requires 0 !in name && env.utf8(name)
    ensures ReadStr(env, pre + name + [0] + post, |pre|) == name
  {
    var strtab := pre + name + [0] + post;
    assert strtab[|pre|..] == name + [0] + post;
    StopsAtNul(name, post);
  }

  lemma {:induction false} StopsAtNul(name: seq<byte>, post: seq<byte>)
    requires 0 !in name
    ensures UpToNul(name + [0] + post) == name
  {
    var s := name + [0] + post;
    if name != [] {
      StopsAtNul(name[1..], post);
      assert s[1..] == name[1..] + [0] + post;
    }
  }

  // ----- Records as the ELF format lays them out -----------------------------------------------

  /** `Elf64_Shdr`, field by field. */
  ghost function ShdrBytes(sh: Shdr, name: nat, flags: nat, addr: nat, entsize: nat): seq<byte> {
    ToLe(name, 4) + ToLe(sh.kind, 4) + ToLe(flags, 8) + ToLe(addr, 8) + ToLe(sh.offset, 8) + ToLe(sh.size, 8)
    + ToLe(sh.link, 4) + ToLe(sh.info, 4) + ToLe(sh.addralign, 8) + ToLe(entsize, 8)
  }

  /** `Elf64_Sym`. */
  ghost function SymBytes(s: Sym, info: nat, other: nat, size: nat): seq<byte> {
    ToLe(s.name, 4) + ToLe(info, 1) + ToLe(other, 1) + ToLe(s.shndx, 2) + ToLe(s.value, 8) + ToLe(size, 8)
  }

  /** `Elf64_Rela`; the symbol is in the upper half of `r_info`, the addend in two's complement. */
  ghost function RelaBytes(r: Rela): seq<byte> {
    ToLe(r.offset, 8) + (ToLe(r.kind, 4) + ToLe(r.sym, 4)) + ToLe(r.addend % U64, 8)
  }

  /** `Elf64_Ehdr` of a relocatable file. */
  ghost function EhdrBytes(ident: seq<byte>, shOff: nat, count: nat, rest: seq<seq<byte>>): seq<byte>
    requires |rest| == 10
  {
    ELFMAG + ident + ToLe(ET_REL, 2) + rest[0] + rest[1] + rest[2] + rest[3] + ToLe(shOff, 8)
    + rest[4] + rest[5] + rest[6] + rest[7] + rest[8] + ToLe(count, 2) + rest[9]
  }

  /** The data holds `bytes` at `at`. */
  ghost predicate HoldsAt(data: seq<byte>, at: nat, bytes: seq<byte>) {
    at + |bytes| <= |data| && data[at..at + |bytes|] == bytes
  }

  lemma {:induction false} HoldsParts(data: seq<byte>, at: nat, a: seq<byte>, b: seq<byte>)
    requires HoldsAt(data, at, a + b)
    ensures HoldsAt(data, at, a) && HoldsAt(data, at + |a|, b)
  {
    var ab := data[at..at + |a + b|];
    assert data[at..at + |a|] == ab[..|a|] == a;
    assert data[at + |a|..at + |a| + |b|] == ab[|a|..] == b;
  }

  lemma {:induction false} ReadsBack(data: seq<byte>, at: nat, v: nat, n: nat)
    requires HoldsAt(data, at, ToLe(v, n)) && v < Pow256(n)
    ensures at + n <= |data| && Read(data, at, n) == v
  {
    LeOfToLe(v, n);
  }

  lemma {:induction false} Pow256Small()
    ensures Pow256(1) == 256 && Pow256(2) == 0x1_0000
  {
    assert Pow256(0) == 1;
  }

  /** A symbol written as the format says is read back. */
  lemma {:induction false} SymRoundTrip(data: seq<byte>, at: nat, s: Sym, info: nat, other: nat, size: nat)
    requires HoldsAt(data, at, SymBytes(s, info, other, size))
    requires s.name < U32 && s.shndx < 0x1_0000 && s.value < U64
    ensures at + SYM_SIZE <= |data| && ReadSym(data, at) == s
  {
    var f1, f2, f3, f4 := ToLe(s.name, 4), ToLe(info, 1), ToLe(other, 1), ToLe(s.shndx, 2);
    var f5, f6 := ToLe(s.value, 8), ToLe(size, 8);
    HoldsParts(data, at, f1 + f2 + f3 + f4 + f5, f6);
    HoldsParts(data, at, f1 + f2 + f3 + f4, f5);
    HoldsParts(data, at, f1 + f2 + f3, f4);
    HoldsParts(data, at, f1 + f2, f3);
    HoldsParts(data, at, f1, f2);
    Pow256Values();
    Pow256Small();
    ReadsBack(data, at, s.name, 4);
    ReadsBack(data, at + 6, s.shndx, 2);
    ReadsBack(data, at + 8, s.value, 8);
  }

  /** The image's symbols are those written in the symbol table, and its names those of the string
      table; a trailing partial symbol is left out. */
  lemma {:induction false} TablesRoundTrip(data: seq<byte>, load: nat, env: ElfModule.Env, shdrs: seq<Shdr>, symtab: Shdr, str: Shdr,
                                           syms: seq<Sym>, names: seq<byte>)
    requires symtab.size / SYM_SIZE == |syms| && |names| == str.size && HoldsAt(data, str.offset, names)
    requires forall i :: 0 <= i < |syms| ==> SymWritten(data, symtab.offset + i * SYM_SIZE, syms[i])
    ensures var m := ImageOf(data, load, env, shdrs, (symtab, str));
      m.syms == syms && m.strtab == names && m.data == data && m.shdrs == shdrs && m.load == load
  {
    var r := Symbols(data, symtab);
    forall i | 0 <= i < |syms|
      ensures symtab.offset + i * SYM_SIZE + SYM_SIZE <= |data| && ReadSym(data, symtab.offset + i * SYM_SIZE) == syms[i]
    {
      assert SymWritten(data, symtab.offset + i * SYM_SIZE, syms[i]);
      WrittenReads(data, symtab.offset + i * SYM_SIZE, syms[i]);
    }
    assert |r| == |syms|;
    StrtabIs(data, str, names);
  }

  /** A symbol is written at `at`, with whatever type, visibility and size. */
  ghost predicate SymWritten(data: seq<byte>, at: nat, s: Sym) {
    && s.name < U32 && s.shndx < 0x1_0000 && s.value < U64
    && exists info: nat, other: nat, size: nat :: HoldsAt(data, at, SymBytes(s, info, other, size))
  }

  lemma {:induction false} WrittenReads(data: seq<byte>, at: nat, s: Sym)
    requires SymWritten(data, at, s)
    ensures at + SYM_SIZE <= |data| && ReadSym(data, at) == s
  {
    var info: nat, other: nat, size: nat :| HoldsAt(data, at, SymBytes(s, info, other, size));
    SymRoundTrip(data, at, s, info, other, size);
  }

  /** So is a relocation entry. */
  lemma {:induction false} RelaRoundTrip(data: seq<byte>, at: nat, r: Rela)
    requires HoldsAt(data, at, RelaBytes(r)) && r.offset < U64 && r.kind < U32 && r.sym < U32
    ensures at + RELA_SIZE <= |data| && ReadRela(data, at) == r
  {
    var f1, f2, f3 := ToLe(r.offset, 8), ToLe(r.kind, 4) + ToLe(r.sym, 4), ToLe(r.addend % U64, 8);
    HoldsParts(data, at, f1 + f2, f3);
    HoldsParts(data, at, f1, f2);
    Pow256Values();
    ReadsBack(data, at, r.offset, 8);
    ReadsBack(data, at + 16, r.addend % U64, 8);
    InfoHalves(r.kind, r.sym);
    Halves(r.kind, r.sym);
    AddendBack(r.addend);
    assert Read(data, at + 8, 8) == r.kind + U32 * r.sym;
  }

  lemma {:induction false} Halves(kind: nat, sym: nat)
    requires kind < U32
    ensures (kind + U32 * sym) % U32 == kind && (kind + U32 * sym) / U32 == sym
  {}

  lemma {:induction false} AddendBack(addend: i64)
    ensures WrapI64(addend % U64) == addend
  {}

  lemma {:induction false} InfoHalves(kind: nat, sym: nat)
    requires kind < U32 && sym < U32
    ensures Le(ToLe(kind, 4) + ToLe(sym, 4)) == kind + U32 * sym
  {
    Pow256Values();
    LeConcat(ToLe(kind, 4), ToLe(sym, 4));
    LeOfToLe(kind, 4);
    LeOfToLe(sym, 4);
  }

  lemma {:induction false} LeConcat(a: seq<byte>, b: seq<byte>)
    ensures Le(a + b) == Le(a) + Pow256(|a|) * Le(b)
  {
    if a == [] {
      assert a + b == b;
    } else {
      LeConcat(a[1..], b);
      assert (a + b)[1..] == a[1..] + b;
      Carry(Le(a[1..]), Pow256(|a| - 1), Le(b));
    }
  }

  lemma {:induction false} Carry(low: nat, p: nat, high: nat)
    ensures 256 * (low + p * high) == 256 * low + (256 * p) * high
  {}

  /** So is a section header. */
  lemma {:induction false} ShdrRoundTrip(data: seq<byte>, at: nat, sh: Shdr, name: nat, flags: nat, addr: nat, entsize: nat)
    requires HoldsAt(data, at, ShdrBytes(sh, name, flags, addr, entsize))
    requires sh.kind < U32 && sh.offset < U64 && sh.size < U64 && sh.link < U32 && sh.info < U32 && sh.addralign < U64
    ensures at + SHDR_SIZE <= |data| && ReadShdr(data, at) == sh
  {
    var f1, f2, f3, f4, f5 := ToLe(name, 4), ToLe(sh.kind, 4), ToLe(flags, 8), ToLe(addr, 8), ToLe(sh.offset, 8);
    var f6, f7, f8, f9, f10 := ToLe(sh.size, 8), ToLe(sh.link, 4), ToLe(sh.info, 4), ToLe(sh.addralign, 8), ToLe(entsize, 8);
    HoldsParts(data, at, f1 + f2 + f3 + f4 + f5 + f6 + f7 + f8 + f9, f10);
    HoldsParts(data, at, f1 + f2 + f3 + f4 + f5 + f6 + f7 + f8, f9);
    HoldsParts(data, at, f1 + f2 + f3 + f4 + f5 + f6 + f7, f8);
    HoldsParts(data, at, f1 + f2 + f3 + f4 + f5 + f6, f7);
    HoldsParts(data, at, f1 + f2 + f3 + f4 + f5, f6);
    HoldsParts(data, at, f1 + f2 + f3 + f4, f5);
    HoldsParts(data, at, f1 + f2 + f3, f4);
    HoldsParts(data, at, f1 + f2, f3);
    HoldsParts(data, at, f1, f2);
    Pow256Values();
    ReadsBack(data, at + 4, sh.kind, 4);
    ReadsBack(data, at + 24, sh.offset, 8);
    ReadsBack(data, at + 32, sh.size, 8);
    ReadsBack(data, at + 40, sh.link, 4);
    ReadsBack(data, at + 44, sh.info, 4);
    ReadsBack(data, at + 48, sh.addralign, 8);
  }

  /** The widths of the other header fields: machine, version, entry, phoff; flags, ehsize, phentsize,
      phnum, shentsize; shstrndx. */
  ghost predicate EhdrWidths(ident: seq<byte>, rest: seq<seq<byte>>) {
    && |ident| == 12 && |rest| == 10
    && |rest[0]| == 2 && |rest[1]| == 4 && |rest[2]| == 8 && |rest[3]| == 8
    && |rest[4]| == 4 && |rest[5]| == 2 && |rest[6]| == 2 && |rest[7]| == 2 && |rest[8]| == 2
    && |rest[9]| == 2
  }

  /** And the file header: the section table is found exactly when it lies inside the file. */
  lemma {:induction false} HeaderRoundTrip(data: seq<byte>, ident: seq<byte>, shOff: nat, count: nat, rest: seq<seq<byte>>)
    requires EhdrWidths(ident, rest) && HoldsAt(data, 0, EhdrBytes(ident, shOff, count, rest))
    requires shOff < U64 && count < 0x1_0000
    ensures Header(data) == if shOff + count * SHDR_SIZE <= |data| then Ok((shOff, count)) else Err(BadSectionTable)
  {
    var low := ELFMAG + ident + ToLe(ET_REL, 2) + rest[0] + rest[1] + rest[2] + rest[3];
    var mid := rest[4] + rest[5] + rest[6] + rest[7] + rest[8];
    assert EhdrBytes(ident, shOff, count, rest) == low + ToLe(shOff, 8) + mid + ToLe(count, 2) + rest[9];
    HoldsParts(data, 0, low + ToLe(shOff, 8) + mid + ToLe(count, 2), rest[9]);
    HoldsParts(data, 0, low + ToLe(shOff, 8) + mid, ToLe(count, 2));
    HoldsParts(data, 0, low + ToLe(shOff, 8), mid);
    HoldsParts(data, 0, low, ToLe(shOff, 8));
    LowPart(data, ident, rest);
    Pow256Values();
    Pow256Small();
    ReadsBack(data, 40, shOff, 8);
    ReadsBack(data, 60, count, 2);
  }

  lemma {:induction false} LowPart(data: seq<byte>, ident: seq<byte>, rest: seq<seq<byte>>)
    requires EhdrWidths(ident, rest)
    requires HoldsAt(data, 0, ELFMAG + ident + ToLe(ET_REL, 2) + rest[0] + rest[1] + rest[2] + rest[3])
    ensures |data| >= 18 && data[..4] == ELFMAG && Read(data, 16, 2) == ET_REL
  {
    HoldsParts(data, 0, ELFMAG + ident + ToLe(ET_REL, 2) + rest[0] + rest[1] + rest[2], rest[3]);
    HoldsParts(data, 0, ELFMAG + ident + ToLe(ET_REL, 2) + rest[0] + rest[1], rest[2]);
    HoldsParts(data, 0, ELFMAG + ident + ToLe(ET_REL, 2) + rest[0], rest[1]);
    HoldsParts(data, 0, ELFMAG + ident + ToLe(ET_REL, 2), rest[0]);
    HoldsParts(data, 0, ELFMAG + ident, ToLe(ET_REL, 2));
    HoldsParts(data, 0, ELFMAG, ident);
    Pow256Small();
    ReadsBack(data, 16, ET_REL, 2);
  }
}
