/** kernel/src/elf.rs, `relocate_module`: from the bytes of a relocatable file to the
    patched module image. */
module ElfModule {
  import opened Bits
  import opened ElfReloc
  import opened ElfLayout

  const EHDR_SIZE: nat := 64
  const SHDR_SIZE: nat := 64
  const SYM_SIZE: nat := 24
  const RELA_SIZE: nat := 24
  const ET_REL: nat := 1
  const ELFMAG: seq<byte> := [0x7f, 0x45, 0x4c, 0x46]
  const MODULE_INIT: seq<byte> := [0x6d, 0x6f, 0x64, 0x75, 0x6c, 0x65, 0x5f, 0x69, 0x6e, 0x69, 0x74]

  datatype Sym = Sym(name: nat, shndx: nat, value: nat)
  datatype Rela = Rela(offset: nat, kind: nat, sym: nat, addend: i64)

  /** What the environment supplies: the kernel's export table and UTF-8 validity. */
  datatype Env = Env(exports: map<seq<byte>, u64>, utf8: seq<byte> -> bool)

  // ----- Reading the file ------------------------------------------------------------

  function Read(data: seq<byte>, at: nat, n: nat): (r: nat)
    requires at + n <= |data|
    ensures r < Pow256(n)
  {
    ToLeOfLe(data[at..at + n]);
    Le(data[at..at + n])
  }

  function ReadShdr(data: seq<byte>, at: nat): (r: Shdr)
    requires at + SHDR_SIZE <= |data|
    ensures r.addralign < U64
  {
    Pow256Values();
    Shdr(Read(data, at + 4, 4), Read(data, at + 24, 8), Read(data, at + 32, 8),
         Read(data, at + 40, 4), Read(data, at + 44, 4), Read(data, at + 48, 8))
  }

  function ShdrAt(data: seq<byte>, shOff: nat, idx: nat): Result<Shdr> {
    var off := shOff + idx * SHDR_SIZE;
    if off + SHDR_SIZE > |data| then Err(BadSectionTable) else Ok(ReadShdr(data, off))
  }

  function Shdrs(data: seq<byte>, shOff: nat, count: nat): (r: seq<Shdr>)
    requires shOff + count * SHDR_SIZE <= |data|
    ensures |r| == count && AlignsOk(r)
    ensures forall i :: 0 <= i < count ==> ShdrAt(data, shOff, i) == Ok(r[i])
  {
    if count == 0 then [] else Shdrs(data, shOff, count - 1) + [ReadShdr(data, shOff + (count - 1) * SHDR_SIZE)]
  }

  function ReadSym(data: seq<byte>, at: nat): Sym
    requires at + SYM_SIZE <= |data|
  {
    Sym(Read(data, at, 4), Read(data, at + 6, 2), Read(data, at + 8, 8))
  }

  /** The first `n` symbols of the table, cut short at the end of the file. */
  function SymsUpTo(data: seq<byte>, at: nat, n: nat): (r: seq<Sym>)
    ensures |r| <= n
    ensures forall i :: 0 <= i < |r| ==> at + i * SYM_SIZE + SYM_SIZE <= |data| && r[i] == ReadSym(data, at + i * SYM_SIZE)
    ensures |r| < n ==> at + |r| * SYM_SIZE + SYM_SIZE > |data|
  {
    if n == 0 then [] else
      var rest := SymsUpTo(data, at, n - 1);
      if |rest| == n - 1 && at + (n - 1) * SYM_SIZE + SYM_SIZE <= |data|
      then rest + [ReadSym(data, at + (n - 1) * SYM_SIZE)] else rest
  }

  function Symbols(data: seq<byte>, symtab: Shdr): seq<Sym> {
    SymsUpTo(data, symtab.offset, symtab.size / SYM_SIZE)
  }

  function ReadRela(data: seq<byte>, at: nat): Rela
    requires at + RELA_SIZE <= |data|
  {
    Pow256Values();
    var info := Read(data, at + 8, 8);
    Rela(Read(data, at, 8), info % U32, info / U32, WrapI64(Read(data, at + 16, 8)))
  }

  /** The bytes up to the first NUL, or the whole rest. */
  function UpToNul(s: seq<byte>): (r: seq<byte>)
    ensures r <= s && 0 !in r && (|r| < |s| ==> s[|r|] == 0)
  {
    if s == [] || s[0] == 0 then [] else [s[0]] + UpToNul(s[1..])
  }

  function ReadStr(env: Env, strtab: seq<byte>, off: nat): seq<byte> {
    if off >= |strtab| then [] else
      var s := UpToNul(strtab[off..]);
      if env.utf8(s) then s else []
  }

  /** The first SYMTAB section and the string table it links to. */
  function FindSymtab(data: seq<byte>, shOff: nat, shdrs: seq<Shdr>): Result<(Shdr, Shdr)> {
    if shdrs == [] then Err(BadSectionTable)
    else if shdrs[0].kind == SHT_SYMTAB then
      match ShdrAt(data, shOff, shdrs[0].link)
      case Ok(str) => Ok((shdrs[0], str))
      case Err(_) => Err(BadStrtab)
    else FindSymtab(data, shOff, shdrs[1..])
  }

  function Strtab(data: seq<byte>, sh: Shdr): seq<byte> {
    if sh.offset + sh.size <= |data| then data[sh.offset..sh.offset + sh.size] else []
  }

  /** The address of the first symbol of that name with a usable section index; the sum wraps. */
  function FindSymbol(env: Env, strtab: seq<byte>, syms: seq<Sym>, name: seq<byte>, addrs: seq<nat>): (r: seq<nat>)
    ensures |r| <= 1
  {
    if syms == [] then []
    else if ReadStr(env, strtab, syms[0].name) == name && syms[0].shndx < |addrs|
    then [(addrs[syms[0].shndx] + syms[0].value) % U64]
    else FindSymbol(env, strtab, syms[1..], name, addrs)
  }

  // ----- Relocation jobs -------------------------------------------------------------

  datatype Job = Skip | Missing(name: seq<byte>) | Reloc(off: int, kind: nat, sym: nat, pc: nat, addend: i64)

  datatype Image = Image(data: seq<byte>, shdrs: seq<Shdr>, load: nat, syms: seq<Sym>, strtab: seq<byte>, env: Env)

  ghost predicate WellLaid(m: Image) {
    NoWrap(m.shdrs, m.load) && forall i :: 0 <= i < |m.shdrs| ==> m.load <= AddrOf(m.shdrs, m.load, i)
  }

  /** One relocation entry of a table that patches section `target`. */
  function JobOf(m: Image, target: nat, rela: Rela): Job
    requires AlignsOk(m.shdrs) && target < |m.shdrs|
  {
    var pc := AddrOf(m.shdrs, m.load, target) + rela.offset;
    if rela.sym >= |m.syms| then Skip else
      var sym := m.syms[rela.sym];
      if sym.shndx == 0 then
        var name := ReadStr(m.env, m.strtab, sym.name);
        if name in m.env.exports then Reloc(pc - m.load, rela.kind, m.env.exports[name], pc, rela.addend)
        else Missing(name)
      else if sym.shndx < |m.shdrs| then
        Reloc(pc - m.load, rela.kind, AddrOf(m.shdrs, m.load, sym.shndx) + sym.value, pc, rela.addend)
      else Skip
  }

  /** Whether section `i` holds relocations to apply. */
  predicate IsTable(m: Image, i: nat)
    requires i < |m.shdrs|
  {
    m.shdrs[i].kind == SHT_RELA && m.shdrs[i].info < |m.shdrs|
  }

  /** The entries of every table lie inside the file; the source reads them unchecked. */
  ghost predicate TablesInFile(m: Image) {
    forall i :: 0 <= i < |m.shdrs| && IsTable(m, i) ==> m.shdrs[i].offset + m.shdrs[i].size <= |m.data|
  }

  function EntryAt(m: Image, i: nat, k: nat): Rela
    requires i < |m.shdrs| && m.shdrs[i].offset + k * RELA_SIZE + RELA_SIZE <= |m.data|
  {
    ReadRela(m.data, m.shdrs[i].offset + k * RELA_SIZE)
  }

  /** The jobs of table `i`, a trailing partial entry left out. */
  ghost function TableJobs(m: Image, i: nat): (r: seq<Job>)
    requires AlignsOk(m.shdrs) && i < |m.shdrs| && IsTable(m, i)
    requires m.shdrs[i].offset + m.shdrs[i].size <= |m.data|
    ensures |r| == m.shdrs[i].size / RELA_SIZE
    ensures forall k :: 0 <= k < |r| ==> r[k] == JobOf(m, m.shdrs[i].info, EntryAt(m, i, k))
  {
    JobsUpTo(m, i, m.shdrs[i].size / RELA_SIZE)
  }

  ghost function JobsUpTo(m: Image, i: nat, n: nat): (r: seq<Job>)
    requires AlignsOk(m.shdrs) && i < |m.shdrs| && IsTable(m, i)
    requires m.shdrs[i].offset + n * RELA_SIZE <= |m.data|
    ensures |r| == n
    ensures forall k :: 0 <= k < n ==> r[k] == JobOf(m, m.shdrs[i].info, EntryAt(m, i, k))
  {
    if n == 0 then [] else JobsUpTo(m, i, n - 1) + [JobOf(m, m.shdrs[i].info, EntryAt(m, i, n - 1))]
  }

  /** All jobs of the first `n` sections, in the order the code meets them. */
  ghost function Jobs(m: Image, n: nat): seq<Job>
    requires AlignsOk(m.shdrs) && TablesInFile(m) && n <= |m.shdrs|
  {
    if n == 0 then []
    else if IsTable(m, n - 1) then Jobs(m, n - 1) + TableJobs(m, n - 1)
    else Jobs(m, n - 1)
  }

  /** No 64-bit wrap in the addresses of a job. */
  predicate JobOk(j: Job) {
    j.Reloc? ==> 0 <= j.off && j.pc < U64 && j.sym < U64
  }

  ghost predicate JobsOk(jobs: seq<Job>) { forall i :: 0 <= i < |jobs| ==> JobOk(jobs[i]) }

  /** What a job does to the buffer: nothing, an error, or bytes at an offset. */
  datatype Write = Quiet | Stop(error: RelocError) | Put(off: nat, bytes: seq<byte>)

  function WriteOf(j: Job): Write
    requires JobOk(j)
  {
    match j
    case Skip => Quiet
    case Missing(name) => Stop(MissingSymbol(name))
    case Reloc(off, kind, sym, pc, addend) =>
      match FieldOf(kind, sym, pc, addend)
      case Nothing => Quiet
      case Store(bytes) => Put(off, bytes)
      case Fail(e) => Stop(e)
  }

  ghost function Writes(jobs: seq<Job>): (r: seq<Write>)
    requires JobsOk(jobs)
    ensures |r| == |jobs| && forall i :: 0 <= i < |jobs| ==> r[i] == WriteOf(jobs[i])
  {
    seq(|jobs|, i requires 0 <= i < |jobs| => WriteOf(jobs[i]))
  }

  function Step(w: Write, buf: seq<byte>): (r: (Result<()>, seq<byte>))
    ensures |r.1| == |buf|
  {
    match w
    case Quiet => (Ok(()), buf)
    case Stop(e) => (Err(e), buf)
    case Put(off, bytes) => (Ok(()), Patch(buf, off, bytes))
  }

  /** Writes in order, stopping at the first error. */
  ghost function Run(ws: seq<Write>, buf: seq<byte>): (r: (Result<()>, seq<byte>))
    ensures |r.1| == |buf|
  {
    if ws == [] then (Ok(()), buf) else
      var r := Run(ws[..|ws| - 1], buf);
      if r.0.Err? then r else Step(ws[|ws| - 1], r.1)
  }

  lemma RunOne(ws: seq<Write>, buf: seq<byte>, k: nat)
    requires k < |ws| && Run(ws[..k], buf).0.Ok?
    ensures Run(ws[..k + 1], buf) == Step(ws[k], Run(ws[..k], buf).1)
  {
    assert ws[..k + 1][..k] == ws[..k];
  }

  lemma {:induction false} RunStops(ws: seq<Write>, buf: seq<byte>, n: nat)
    requires n <= |ws| && Run(ws[..n], buf).0.Err?
    ensures Run(ws, buf) == Run(ws[..n], buf)
    decreases |ws| - n
  {
    if n == |ws| {
      assert ws[..n] == ws;
    } else {
      assert ws[..n + 1][..n] == ws[..n];
      RunStops(ws, buf, n + 1);
    }
  }

  lemma {:induction false} RunConcat(a: seq<Write>, b: seq<Write>, buf: seq<byte>)
    ensures Run(a + b, buf) == if Run(a, buf).0.Err? then Run(a, buf) else Run(b, Run(a, buf).1)
  {
    if b == [] {
      assert a + b == a;
    } else {
      var k := |b| - 1;
      RunConcat(a, b[..k], buf);
      assert (a + b)[..|a + b| - 1] == a + b[..k];
    }
  }

  // ----- What the finished image satisfies ---------------------------------------------

  /** A write that does not fit is skipped, so it covers nothing. */
  ghost predicate Covers(w: Write, len: nat, x: nat) {
    w.Put? && w.off + |w.bytes| <= len && w.off <= x < w.off + |w.bytes|
  }

  /** The two writes share no byte. */
  ghost predicate Apart(v: Write, w: Write, len: nat) {
    forall x: nat :: !(Covers(v, len, x) && Covers(w, len, x))
  }

  lemma StepByte(w: Write, buf: seq<byte>, x: nat)
    requires x < |buf|
    ensures Step(w, buf).1[x] == if Covers(w, |buf|, x) then w.bytes[x - w.off] else buf[x]
  {
    if w.Put? { PatchAt(buf, w.off, w.bytes, x); }
  }

  /** A byte that no write from `n` on covers stays what it was before write `n`. */
  lemma {:induction false} RunByte(ws: seq<Write>, buf: seq<byte>, n: nat, x: nat)
    requires n <= |ws| && x < |buf|
    requires forall i :: n <= i < |ws| ==> !Covers(ws[i], |buf|, x)
    ensures Run(ws, buf).1[x] == Run(ws[..n], buf).1[x]
    decreases |ws|
  {
    if n == |ws| {
      assert ws[..n] == ws;
    } else {
      var k := |ws| - 1;
      RunByte(ws[..k], buf, n, x);
      assert ws[..k][..n] == ws[..n];
      StepByte(ws[k], Run(ws[..k], buf).1, x);
    }
  }

  lemma LastWrite(ws: seq<Write>, buf: seq<byte>, n: nat)
    requires n < |ws| && ws[n].Put? && ws[n].off + |ws[n].bytes| <= |buf| && Run(ws, buf).0.Ok?
    requires forall i :: n < i < |ws| ==> Apart(ws[n], ws[i], |buf|)
    ensures Run(ws, buf).1[ws[n].off..ws[n].off + |ws[n].bytes|] == ws[n].bytes
  {
    var w, end := ws[n], Run(ws, buf).1;
    if Run(ws[..n], buf).0.Err? { RunStops(ws, buf, n); }
    RunOne(ws, buf, n);
    forall x | w.off <= x < w.off + |w.bytes|
      ensures end[x] == w.bytes[x - w.off]
    {
      assert Covers(w, |buf|, x);
      forall i | n < i < |ws|
        ensures !Covers(ws[i], |buf|, x)
      {
        assert Apart(w, ws[i], |buf|);
      }
      RunByte(ws, buf, n + 1, x);
      StepByte(w, Run(ws[..n], buf).1, x);
    }
    assert end[w.off..w.off + |w.bytes|] == w.bytes;
  }

  lemma PutSound(j: Job)
    requires JobOk(j) && WriteOf(j).Put?
    ensures j.Reloc? && WriteOf(j).off == j.off
    ensures AbiHolds(j.kind, j.sym, j.pc, j.addend, WriteOf(j).bytes)
  {
    FieldSound(j.kind, j.sym, j.pc, j.addend);
  }

  /** The finished image of module `m` over the buffer `buf`. */
  ghost function Finished(m: Image, buf: seq<byte>): (r: (Result<()>, seq<byte>))
    requires Sound(m)
    ensures |r.1| == |buf|
  {
    Run(AllWrites(m), Copied(m.shdrs, m.load, m.data, buf, |m.shdrs|))
  }

  ghost predicate Prepared(m: Image) {
    AlignsOk(m.shdrs) && TablesInFile(m) && JobsOk(Jobs(m, |m.shdrs|))
  }

  /** The code's vector of section addresses. */
  ghost predicate AddrsOf(m: Image, addrs: seq<nat>)
    requires AlignsOk(m.shdrs)
  {
    |addrs| == |m.shdrs| && forall i :: 0 <= i < |addrs| ==> addrs[i] == AddrOf(m.shdrs, m.load, i)
  }

  ghost predicate Sound(m: Image) {
    WellLaid(m) && Prepared(m)
  }

  ghost function AllWrites(m: Image): seq<Write>
    requires Prepared(m)
  {
    Writes(Jobs(m, |m.shdrs|))
  }

  /** Relocation `n` of a module that relocates without error: unless a later relocation
      overwrites it, its field solves the ABI equation in the finished image. */
  lemma AppliedField(m: Image, buf: seq<byte>, n: nat)
    requires Sound(m) && n < |Jobs(m, |m.shdrs|)| && Finished(m, buf).0.Ok?
    requires var w := AllWrites(m)[n]; w.Put? && w.off + |w.bytes| <= |buf|
    requires forall i :: n < i < |AllWrites(m)| ==> Apart(AllWrites(m)[n], AllWrites(m)[i], |buf|)
    ensures var j, w := Jobs(m, |m.shdrs|)[n], AllWrites(m)[n];
      && j.Reloc? && j.off == w.off
      && AbiHolds(j.kind, j.sym, j.pc, j.addend, Finished(m, buf).1[w.off..w.off + |w.bytes|])
  {
    LastWrite(AllWrites(m), Copied(m.shdrs, m.load, m.data, buf, |m.shdrs|), n);
    PutSound(Jobs(m, |m.shdrs|)[n]);
  }

  ghost predicate Uncovered(m: Image, len: nat, y: nat)
    requires Sound(m)
  {
    forall n :: 0 <= n < |AllWrites(m)| ==> !Covers(AllWrites(m)[n], len, y)
  }

  /** In the finished image every byte of a copied section that no relocation covers is the
      file's byte. */
  lemma ImageBytes(m: Image, buf: seq<byte>, i: nat, x: nat)
    requires Sound(m) && Pow2Aligned(m.shdrs)
    requires i < |m.shdrs| && CopiedAt(m.shdrs, m.load, m.data, |buf|, i) && x < m.shdrs[i].size
    requires Uncovered(m, |buf|, AddrOf(m.shdrs, m.load, i) - m.load + x)
    ensures Finished(m, buf).1[AddrOf(m.shdrs, m.load, i) - m.load + x] == m.data[m.shdrs[i].offset + x]
  {
    var ws, c := AllWrites(m), Copied(m.shdrs, m.load, m.data, buf, |m.shdrs|);
    RunByte(ws, c, 0, AddrOf(m.shdrs, m.load, i) - m.load + x);
    assert ws[..0] == [];
    CopiedContents(m.shdrs, m.load, m.data, buf, |m.shdrs|, i, x);
  }

  /** And every byte outside all loaded sections and all relocations is the buffer's own. */
  lemma ImageOutside(m: Image, buf: seq<byte>, y: nat)
    requires Sound(m) && y < |buf| && Uncovered(m, |buf|, y)
    requires forall i :: 0 <= i < |m.shdrs| && m.shdrs[i].Loaded() ==>
      !(AddrOf(m.shdrs, m.load, i) - m.load <= y < AddrOf(m.shdrs, m.load, i) - m.load + m.shdrs[i].size)
    ensures Finished(m, buf).1[y] == buf[y]
  {
    var ws, c := AllWrites(m), Copied(m.shdrs, m.load, m.data, buf, |m.shdrs|);
    RunByte(ws, c, 0, y);
    assert ws[..0] == [];
    CopiedOutside(m.shdrs, m.load, m.data, buf, |m.shdrs|, y);
  }

  // ----- The code ------------------------------------------------------------------------

  function Header(data: seq<byte>): (r: Result<(nat, nat)>)
    ensures r.Ok? ==> r.value.0 + r.value.1 * SHDR_SIZE <= |data|
  {
    if |data| < EHDR_SIZE then Err(NotRelocatable)
    else if data[..4] != ELFMAG || Read(data, 16, 2) != ET_REL then Err(NotRelocatable)
    else
      var shOff, count := Read(data, 40, 8), Read(data, 60, 2);
      if shOff + count * SHDR_SIZE > |data| then Err(BadSectionTable) else Ok((shOff, count))
  }

  function ImageOf(data: seq<byte>, load: nat, env: Env, shdrs: seq<Shdr>, tabs: (Shdr, Shdr)): Image {
    Image(data, shdrs, load, Symbols(data, tabs.0), Strtab(data, tabs.1), env)
  }

  /** What the source takes for granted: no address arithmetic wraps, and relocation tables
      lie inside the file. */
  ghost predicate Tame(data: seq<byte>, load: nat, env: Env) {
    Header(data).Ok? ==>
      var (shOff, count) := Header(data).value;
      var shdrs := Shdrs(data, shOff, count);
      && WellLaid(Image(data, shdrs, load, [], [], env))
      && (FindSymtab(data, shOff, shdrs).Ok? ==>
          var m := ImageOf(data, load, env, shdrs, FindSymtab(data, shOff, shdrs).value);
          Sound(m))
  }

  method RelocateModule(data: seq<byte>, buf: array<byte>, load: u64, env: Env) returns (r: Result<nat>)
    requires Tame(data, load, env)
    modifies buf
    ensures Header(data).Err? ==> r == Err(Header(data).error) && buf[..] == old(buf[..])
    ensures Header(data).Ok? ==>
      var (shOff, count) := Header(data).value;
      var shdrs := Shdrs(data, shOff, count);
      var copied := Copied(shdrs, load, data, old(buf[..]), |shdrs|);
      match FindSymtab(data, shOff, shdrs)
      case Err(e) => r == Err(e) && buf[..] == copied
      case Ok(tabs) =>
        var m := ImageOf(data, load, env, shdrs, tabs);
        var done := Finished(m, old(buf[..]));
        && buf[..] == done.1
        && (done.0.Err? ==> r == Err(done.0.error))
        && (done.0.Ok? ==>
            var addrs := seq(|shdrs|, i requires 0 <= i < |shdrs| => AddrOf(shdrs, load, i));
            var entry := FindSymbol(env, m.strtab, m.syms, MODULE_INIT, addrs);
            r == Ok(if entry == [] then load else entry[0]))
  {
    var header := Header(data);
    if header.Err? { return Err(header.error); }
    var (shOff, count) := header.value;
    var shdrs := Shdrs(data, shOff, count);
    var addrs := LoadSections(shdrs, load, data, buf);
    var tabs := FindSymtab(data, shOff, shdrs);
    if tabs.Err? { return Err(tabs.error); }
    var m := ImageOf(data, load, env, shdrs, tabs.value);
    var done := ApplyTables(m, addrs, buf);
    if done.Err? { return Err(done.error); }
    assert addrs == seq(|shdrs|, i requires 0 <= i < |shdrs| => AddrOf(shdrs, load, i));
    var entry := FindSymbol(env, m.strtab, m.syms, MODULE_INIT, addrs);
    r := Ok(if entry == [] then load else entry[0]);
  }

  /** One relocation entry. */
  method ApplyEntry(m: Image, addrs: seq<nat>, target: nat, rela: Rela, buf: array<byte>) returns (r: Result<()>)
    requires AlignsOk(m.shdrs) && target < |m.shdrs| && JobOk(JobOf(m, target, rela))
    requires AddrsOf(m, addrs)
    modifies buf
    ensures (r, buf[..]) == Step(WriteOf(JobOf(m, target, rela)), old(buf[..]))
  {
    if rela.sym >= |m.syms| { return Ok(()); }
    var sym := m.syms[rela.sym];
    var symVal: nat;
    if sym.shndx == 0 {
      var name := ReadStr(m.env, m.strtab, sym.name);
      if name !in m.env.exports { return Err(MissingSymbol(name)); }
      symVal := m.env.exports[name];
    } else if sym.shndx < |m.shdrs| {
      symVal := addrs[sym.shndx] + sym.value;
    } else {
      return Ok(());
    }
    var pc := addrs[target] + rela.offset;
    r := ApplyReloc(buf, pc - m.load, rela.kind, symVal, pc, rela.addend);
  }

  /** The entries of one relocation section. */
  method ApplyTable(m: Image, addrs: seq<nat>, i: nat, buf: array<byte>) returns (r: Result<()>)
    requires AlignsOk(m.shdrs) && i < |m.shdrs| && IsTable(m, i)
    requires m.shdrs[i].offset + m.shdrs[i].size <= |m.data|
    requires JobsOk(TableJobs(m, i))
    requires AddrsOf(m, addrs)
    modifies buf
    ensures (r, buf[..]) == Run(Writes(TableJobs(m, i)), old(buf[..]))
  {
    var sh := m.shdrs[i];
    var count := sh.size / RELA_SIZE;
    ghost var all, was := Writes(TableJobs(m, i)), buf[..];
    r := Ok(());
    for k := 0 to count
      invariant r == Ok(()) && Run(all[..k], was) == (r, buf[..])
    {
      var rela := EntryAt(m, i, k);
      r := ApplyEntry(m, addrs, sh.info, rela, buf);
      RunOne(all, was, k);
      if r.Err? {
        RunStops(all, was, k + 1);
        return;
      }
    }
    assert all[..count] == all;
  }

  /** One pass of the outer relocation loop, which ends the whole run at an error. */
  method ApplySection(m: Image, addrs: seq<nat>, i: nat, buf: array<byte>, ghost was: seq<byte>) returns (r: Result<()>)
    requires Prepared(m) && i < |m.shdrs| && AddrsOf(m, addrs)
    requires Reached(m, i, was, buf[..])
    modifies buf
    ensures r.Ok? ==> Reached(m, i + 1, was, buf[..])
    ensures r.Err? ==> (r, buf[..]) == Run(AllWrites(m), was)
  {
    if !IsTable(m, i) {
      SectionAfter(m, i, was);
      return Ok(());
    }
    ghost var mid := buf[..];
    TableReady(m, i);
    r := ApplyTable(m, addrs, i, buf);
    TableAfter(m, i, was, mid, r, buf[..]);
  }

  lemma TableReady(m: Image, i: nat)
    requires Prepared(m) && i < |m.shdrs| && IsTable(m, i)
    ensures m.shdrs[i].offset + m.shdrs[i].size <= |m.data| && JobsOk(TableJobs(m, i))
  {
    JobsNext(m, i);
  }

  lemma TableAfter(m: Image, i: nat, was: seq<byte>, mid: seq<byte>, r: Result<()>, now: seq<byte>)
    requires Prepared(m) && i < |m.shdrs| && IsTable(m, i) && Reached(m, i, was, mid) && JobsOk(TableJobs(m, i))
    requires (r, now) == Run(Writes(TableJobs(m, i)), mid)
    ensures r.Ok? ==> Reached(m, i + 1, was, now)
    ensures r.Err? ==> (r, now) == Run(AllWrites(m), was)
  {
    SectionAfter(m, i, was);
    if r.Err? { StopEarly(m, i + 1, was); }
  }

  /** The outer relocation loop. */
  method ApplyTables(m: Image, addrs: seq<nat>, buf: array<byte>) returns (r: Result<()>)
    requires Prepared(m) && AddrsOf(m, addrs)
    modifies buf
    ensures (r, buf[..]) == Run(AllWrites(m), old(buf[..]))
  {
    ghost var was := buf[..];
    RunToEnds(m, was);
    for i := 0 to |m.shdrs|
      invariant Reached(m, i, was, buf[..])
    {
      r := ApplySection(m, addrs, i, buf, was);
      if r.Err? { return; }
    }
    r := Ok(());
  }

  /** The tables of the first `i` sections turn `was` into `now` without an error. */
  ghost predicate Reached(m: Image, i: nat, was: seq<byte>, now: seq<byte>)
    requires Prepared(m) && i <= |m.shdrs|
  {
    RunTo(m, i, was) == (Ok(()), now)
  }

  /** The buffer after the tables of the first `i` sections. */
  ghost function RunTo(m: Image, i: nat, buf: seq<byte>): (Result<()>, seq<byte>)
    requires Prepared(m) && i <= |m.shdrs|
  {
    JobsPrefix(m, i, |m.shdrs|);
    assert Jobs(m, i) + [] == Jobs(m, i);
    TailOk(Jobs(m, i), [], Jobs(m, |m.shdrs|));
    Run(Writes(Jobs(m, i)), buf)
  }

  lemma RunToEnds(m: Image, buf: seq<byte>)
    requires Prepared(m)
    ensures RunTo(m, 0, buf) == (Ok(()), buf) && RunTo(m, |m.shdrs|, buf) == Run(AllWrites(m), buf)
  {
    assert Writes(Jobs(m, 0)) == [];
  }

  /** The jobs of one more section. */
  lemma JobsNext(m: Image, i: nat)
    requires Prepared(m) && i < |m.shdrs| && IsTable(m, i)
    ensures Jobs(m, i + 1) == Jobs(m, i) + TableJobs(m, i)
    ensures JobsOk(Jobs(m, i)) && JobsOk(TableJobs(m, i)) && JobsOk(Jobs(m, i + 1))
  {
    JobsPrefix(m, i + 1, |m.shdrs|);
    TailOk(Jobs(m, i), TableJobs(m, i), Jobs(m, |m.shdrs|));
  }

  lemma WritesConcat(a: seq<Job>, b: seq<Job>)
    requires JobsOk(a) && JobsOk(b) && JobsOk(a + b)
    ensures Writes(a + b) == Writes(a) + Writes(b)
  {}

  lemma SectionAfter(m: Image, i: nat, buf: seq<byte>)
    requires Prepared(m) && i < |m.shdrs|
    ensures !IsTable(m, i) ==> RunTo(m, i + 1, buf) == RunTo(m, i, buf)
    ensures IsTable(m, i) ==> JobsOk(TableJobs(m, i))
    ensures IsTable(m, i) && RunTo(m, i, buf).0.Ok? ==>
      RunTo(m, i + 1, buf) == Run(Writes(TableJobs(m, i)), RunTo(m, i, buf).1)
  {
    if IsTable(m, i) {
      var a, b := Jobs(m, i), TableJobs(m, i);
      JobsNext(m, i);
      WritesConcat(a, b);
      RunConcat(Writes(a), Writes(b), buf);
    }
  }

  lemma StopEarly(m: Image, i: nat, buf: seq<byte>)
    requires Prepared(m) && i <= |m.shdrs|
    requires RunTo(m, i, buf).0.Err?
    ensures Run(AllWrites(m), buf) == RunTo(m, i, buf)
  {
    JobsPrefix(m, i, |m.shdrs|);
    var ws := AllWrites(m);
    assert ws[..|Jobs(m, i)|] == Writes(Jobs(m, i));
    RunStops(ws, buf, |Jobs(m, i)|);
  }

  lemma TailOk(a: seq<Job>, b: seq<Job>, all: seq<Job>)
    requires a + b <= all && JobsOk(all)
    ensures JobsOk(a) && JobsOk(b) && JobsOk(a + b)
  {
    assert a + b == all[..|a + b|];
    forall i | 0 <= i < |b|
      ensures JobOk(b[i])
    {
      assert b[i] == all[|a| + i];
    }
    forall i | 0 <= i < |a|
      ensures JobOk(a[i])
    {
      assert a[i] == all[i];
    }
  }

  lemma {:induction false} JobsPrefix(m: Image, i: nat, n: nat)
    requires AlignsOk(m.shdrs) && TablesInFile(m) && i <= n <= |m.shdrs|
    ensures Jobs(m, i) <= Jobs(m, n)
  {
    if i < n { JobsPrefix(m, i, n - 1); }
  }
}
