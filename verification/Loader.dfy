/** Laying program files out in memory (loader.c) and the program hash over them. */
module Loader {
  import opened Crc32
  import opened Crc32Laws
  import opened Crc32Table
  import opened VmStrings

  /** What opening a file and reading it gives: its size, and the bytes `fread` can deliver of it. */
  datatype AnyFile = Missing | File(name: string, size: nat, data: Bytes)

  type File = f: AnyFile | f.File? ==> |f.data| <= f.size witness Missing

  /** `module_info_t`. */
  datatype ModuleInfo = ModuleInfo(name: string, addr: nat, size: nat)

  predicate Readable(f: File) {
    f.File? && |f.data| == f.size
  }

  /** The loop gets through all files from address `ptr` on. */
  predicate Loadable(files: seq<File>, ptr: nat, limit: nat) {
    files == [] ||
    (Readable(files[0]) && (files[0].size == 0 || ptr + files[0].size <= limit) && Loadable(files[1..], ptr + files[0].size, limit))
  }

  /** The program: all files one after the other. */
  function Image(files: seq<File>): Bytes {
    if files == [] then [] else (if files[0].File? then files[0].data else []) + Image(files[1..])
  }

  /** The module table of a successful load. */
  function Layout(files: seq<File>, ptr: nat): (ms: seq<ModuleInfo>)
    ensures |ms| == |files|
  {
    if files == [] then []
    else if files[0].Missing? then [ModuleInfo("", ptr, 0)] + Layout(files[1..], ptr)
    else [ModuleInfo(files[0].name, ptr, |files[0].data|)] + Layout(files[1..], ptr + |files[0].data|)
  }

  /** `Write` that tolerates an empty write past the end. */
  function Store(m: Bytes, a: nat, data: Bytes): (r: Bytes)
    requires data == [] || a + |data| <= |m|
    ensures |r| == |m|
  {
    if data == [] then m else Write(m, a, data)
  }

  /** The load succeeds if and only if every file can be read in full and, unless all are empty, they
      fit together. */
  lemma {:induction false} LoadableIff(files: seq<File>, ptr: nat, limit: nat)
    ensures Loadable(files, ptr, limit) <==>
            (forall i :: 0 <= i < |files| ==> Readable(files[i])) && (Image(files) == [] || ptr + |Image(files)| <= limit)
  {
    if files != [] {
      if Readable(files[0]) {
        LoadableIff(files[1..], ptr + files[0].size, limit);
        assert |Image(files)| == files[0].size + |Image(files[1..])|;
      }
      assert (forall i :: 0 <= i < |files| ==> Readable(files[i])) <==>
             Readable(files[0]) && (forall i :: 0 <= i < |files[1..]| ==> Readable(files[1..][i])) by {
        forall i | 0 <= i < |files| && Readable(files[0]) && (forall i :: 0 <= i < |files[1..]| ==> Readable(files[1..][i]))
          ensures Readable(files[i])
        {
          assert i == 0 || files[i] == files[1..][i - 1];
        }
      }
    }
  }

  // ------------------------------------------------------------------
  // The module map
  // ------------------------------------------------------------------

  /** Each module starts where the one before it ends. */
  lemma {:induction false} LayoutContiguous(files: seq<File>, ptr: nat, i: nat)
    requires i < |files|
    ensures Layout(files, ptr)[i].addr == ptr + |Image(files[..i])|
    ensures Layout(files, ptr)[i].addr + Layout(files, ptr)[i].size == ptr + |Image(files[..i + 1])|
  {
    assert files[..i + 1] != [] && files[..i + 1][1..] == files[1..][..i];
    if i > 0 {
      var next := if files[0].File? then ptr + |files[0].data| else ptr;
      LayoutContiguous(files[1..], next, i - 1);
      assert files[..i][1..] == files[1..][..i - 1];
    } else {
      assert files[..0] == [] && files[1..][..0] == [];
    }
  }

  lemma {:induction false} ImageAppend(a: seq<File>, b: seq<File>)
    ensures Image(a + b) == Image(a) + Image(b)
  {
    if a == [] {
      assert a + b == b;
    } else {
      assert (a + b)[1..] == a[1..] + b;
      ImageAppend(a[1..], b);
    }
  }

  /** Modules do not overlap, lie between the start and the end of the program, and hold their file. */
  lemma LayoutDisjoint(files: seq<File>, ptr: nat, i: nat, j: nat)
    requires i < j < |files|
    ensures var ms := Layout(files, ptr);
            ptr <= ms[i].addr && ms[i].addr + ms[i].size <= ms[j].addr && ms[j].addr + ms[j].size <= ptr + |Image(files)|
  {
    LayoutContiguous(files, ptr, i);
    LayoutContiguous(files, ptr, j);
    assert files[..j] == files[..i + 1] + files[i + 1..j];
    ImageAppend(files[..i + 1], files[i + 1..j]);
    assert files == files[..j + 1] + files[j + 1..];
    ImageAppend(files[..j + 1], files[j + 1..]);
  }

  lemma ImageOfOne(f: File)
    requires f.File?
    ensures Image([f]) == f.data
  {
    assert [f][1..] == [];
  }

  lemma SplitAt(files: seq<File>, i: nat)
    requires i < |files| && files[i].File?
    ensures Image(files) == Image(files[..i]) + files[i].data + Image(files[i + 1..])
    ensures Image(files[..i + 1]) == Image(files[..i]) + files[i].data
  {
    hide Image;
    assert files[..i + 1] == files[..i] + [files[i]];
    ImageAppend(files[..i], [files[i]]);
    ImageOfOne(files[i]);
    assert files == files[..i + 1] + files[i + 1..];
    ImageAppend(files[..i + 1], files[i + 1..]);
  }

  lemma Middle(m: Bytes, ptr: nat, x: Bytes, y: Bytes, z: Bytes)
    requires ptr + |x + y + z| <= |m|
    ensures Write(m, ptr, x + y + z)[ptr + |x|..ptr + |x| + |y|] == y
  {
    var r := Write(m, ptr, x + y + z);
    assert forall i :: 0 <= i < |y| ==> r[ptr + |x| + i] == y[i];
  }

  lemma ModuleHolds(files: seq<File>, ptr: nat, m: Bytes, i: nat)
    requires i < |files| && files[i].File? && (Image(files) == [] || ptr + |Image(files)| <= |m|)
    ensures var info := Layout(files, ptr)[i];
            info.size > 0 ==> info.addr + info.size <= |m| && Store(m, ptr, Image(files))[info.addr..info.addr + info.size] == files[i].data
  {
    LayoutContiguous(files, ptr, i);
    SplitAt(files, i);
    hide Layout, Image, Write;
    if files[i].data != [] {
      Middle(m, ptr, Image(files[..i]), files[i].data, Image(files[i + 1..]));
    }
  }

  // ------------------------------------------------------------------
  // The loader
  // ------------------------------------------------------------------

  lemma {:induction false} LayoutStep(files: seq<File>, ptr: nat, i: nat)
    requires i < |files| && files[i].File?
    ensures Layout(files[..i + 1], ptr) == Layout(files[..i], ptr) + [ModuleInfo(files[i].name, ptr + |Image(files[..i])|, |files[i].data|)]
  {
    assert files[..i + 1][1..] == files[1..][..i];
    if i > 0 {
      var next := if files[0].File? then ptr + |files[0].data| else ptr;
      LayoutStep(files[1..], next, i - 1);
      assert files[..i][1..] == files[1..][..i - 1];
    } else {
      assert files[..0] == [] && files[1..][..0] == [];
    }
  }

  lemma StoreStep(m: Bytes, ptr: nat, x: Bytes, y: Bytes)
    requires x == [] || ptr + |x| <= |m|
    requires y != [] && ptr + |x| + |y| <= |m|
    ensures Write(Store(m, ptr, x), ptr + |x|, y) == Store(m, ptr, x + y)
  {
    hide Write;
    var a, b := Write(Store(m, ptr, x), ptr + |x|, y), Write(m, ptr, x + y);
    assert forall i :: 0 <= i < |m| ==> a[i] == b[i];
  }

  lemma StoreTwice(m: Bytes, ptr: nat, x: Bytes, y: Bytes)
    requires x == [] || ptr + |x| <= |m|
    requires y == [] || ptr + |x| + |y| <= |m|
    ensures Store(Store(m, ptr, x), ptr + |x|, y) == Store(m, ptr, x + y)
  {
    hide Write;
    if y == [] {
      assert x + y == x;
    } else {
      StoreStep(m, ptr, x, y);
    }
  }

  lemma Start(files: seq<File>, ptr: nat, m: Bytes)
    ensures files[..0] == [] && files[0..] == files
    ensures Image(files[..0]) == [] && Layout(files[..0], ptr) == [] && Store(m, ptr, []) == m
  {
  }

  /** What one file leaves in memory, also when the read is short. */
  function Delivered(f: File, ptr: nat, limit: nat): (data: Bytes)
    ensures data == [] || ptr + |data| <= limit
  {
    if f.File? && f.size > 0 && ptr + f.size <= limit then f.data else []
  }

  /** How many files are placed before the first one that fails. */
  function Placed(files: seq<File>, ptr: nat, limit: nat): (k: nat)
    ensures k <= |files|
  {
    if files == [] || !Readable(files[0]) || (files[0].size > 0 && ptr + files[0].size > limit) then 0
    else 1 + Placed(files[1..], ptr + files[0].size, limit)
  }

  lemma {:induction false} PlacedFits(files: seq<File>, ptr: nat, limit: nat)
    ensures var image := Image(files[..Placed(files, ptr, limit)]); image == [] || ptr + |image| <= limit
  {
    var k := Placed(files, ptr, limit);
    if k > 0 {
      PlacedFits(files[1..], ptr + files[0].size, limit);
      assert files[..k][1..] == files[1..][..k - 1];
    } else {
      assert files[..0] == [];
    }
  }

  /** The bytes in memory from the start address on after a load, successful or not: the files placed,
      and what a short read delivers of the next one. */
  function Written(files: seq<File>, ptr: nat, limit: nat): (data: Bytes)
    ensures data == [] || ptr + |data| <= limit
  {
    PlacedFits(files, ptr, limit);
    var k := Placed(files, ptr, limit);
    Image(files[..k]) + if k < |files| then Delivered(files[k], ptr + |Image(files[..k])|, limit) else []
  }

  /** All files are placed exactly when the load succeeds, and then all of them are in memory. */
  lemma {:induction false} PlacedAll(files: seq<File>, ptr: nat, limit: nat)
    ensures Placed(files, ptr, limit) == |files| <==> Loadable(files, ptr, limit)
    ensures Loadable(files, ptr, limit) ==> Written(files, ptr, limit) == Image(files)
  {
    if files != [] {
      PlacedAll(files[1..], ptr + (if files[0].File? then files[0].size else 0), limit);
    }
    assert files[..|files|] == files;
  }

  lemma WrittenAll(files: seq<File>, ptr: nat, limit: nat)
    requires Placed(files, ptr, limit) == |files|
    ensures Written(files, ptr, limit) == Image(files)
  {
    assert files[..|files|] == files;
  }

  lemma PlacedStep(files: seq<File>, ptr: nat, limit: nat)
    requires files != []
    ensures Placed(files, ptr, limit) ==
            if Readable(files[0]) && (files[0].size == 0 || ptr + files[0].size <= limit)
            then 1 + Placed(files[1..], ptr + |files[0].data|, limit) else 0
  {
  }

  lemma NothingPlaced(ptr: nat, limit: nat)
    ensures Placed([], ptr, limit) == 0
  {
  }

  lemma NothingWritten(ptr: nat, limit: nat)
    ensures Written([], ptr, limit) == []
  {
  }

  /** `vm_calculate_program_hash`: the checksum of the program, clipped to memory. */
  function HashOf(m: Bytes, start: nat, size: nat): bv32 {
    if size == 0 || start >= |m| then 0 else Checksum(m[start..start + Min(size, |m| - start)])
  }

  lemma EmptyChecksum()
    ensures Checksum([]) == 0
  {
  }

  /** After a load the hash of the program in memory is the checksum of the files. */
  lemma HashOfImage(m: Bytes, start: nat, image: Bytes)
    requires image == [] || start + |image| <= |m|
    ensures HashOf(Store(m, start, image), start, |image|) == Checksum(image)
    ensures image != [] ==> Store(m, start, image)[start..start + |image|] == image
  {
    EmptyChecksum();
    if image != [] {
      var r := Write(m, start, image);
      assert r[start..start + |image|] == image;
    }
  }

  /** The part of `vm_state` the loader works on. */
  class ProgramMemory {
    const mem: array<bv8>
    const pcStart: nat
    const crc: Crc32Engine
    var modules: seq<ModuleInfo>
    var programSize: nat
    var programHash: bv32

    constructor (mem: array<bv8>, pcStart: nat, crc: Crc32Engine)
      ensures this.mem == mem && this.pcStart == pcStart && this.crc == crc
      ensures modules == [] && programSize == 0 && programHash == 0
    {
      this.mem, this.pcStart, this.crc := mem, pcStart, crc;
      modules, programSize, programHash := [], 0, 0;
    }

    /** `fread` into memory. */
    method CopyIn(a: nat, data: Bytes)
      requires a + |data| <= mem.Length
      modifies mem
      ensures mem[..] == Write(old(mem[..]), a, data)
    {
      forall i | 0 <= i < |data| {
        mem[a + i] := data[i];
      }
    }

    /** `load_programs`. */
    method LoadPrograms(files: seq<File>) returns (ok: bool)
      requires crc.Valid()
      modifies this, mem, crc, crc.table
      ensures crc.Valid()
      ensures ok <==> files != [] && Loadable(files, pcStart, mem.Length)
      ensures ok ==> modules == Layout(files, pcStart) && programSize == |Image(files)| && programHash == Checksum(Image(files))
      ensures ok ==> Written(files, pcStart, mem.Length) == Image(files)
      ensures files == [] ==> modules == old(modules) && programSize == old(programSize) && programHash == old(programHash)
      ensures files != [] && !ok ==> modules == [] && programSize == |Image(files[..Placed(files, pcStart, mem.Length)])| && programHash == 0
      ensures mem[..] == Store(old(mem[..]), pcStart, Written(files, pcStart, mem.Length))
    {
      hide Image, Layout, Loadable, Store, Placed, Written;
      PlacedAll(files, pcStart, mem.Length);
      if files == [] {
        Start(files, pcStart, mem[..]);
        NothingWritten(pcStart, mem.Length);
        return false;
      }
      ok := PlaceFiles(files);
      if ok {
        ghost var before := old(mem[..]);
        HashOfImage(before, pcStart, Image(files));
        assert files[..|files|] == files;
        var image := mem[Min(pcStart, mem.Length)..Min(pcStart, mem.Length) + programSize];
        assert image == Image(files);
        programHash := crc.Compute(image);
      }
    }

    /** The loop of `load_programs`. */
    method PlaceFiles(files: seq<File>) returns (ok: bool)
      modifies this, mem
      ensures ok <==> Placed(files, pcStart, mem.Length) == |files|
      ensures programSize == |Image(files[..Placed(files, pcStart, mem.Length)])| && programHash == 0
      ensures modules == if ok then Layout(files, pcStart) else []
      ensures mem[..] == Store(old(mem[..]), pcStart, Written(files, pcStart, mem.Length))
    {
      hide Write, Store, Placed, Layout, Image, Delivered;
      modules := [];
      var ptr := pcStart;
      programSize := 0;
      programHash := 0;
      var i := 0;
      Start(files, pcStart, old(mem[..]));
      while i < |files|
        invariant 0 <= i <= |files|
        invariant ptr == pcStart + |Image(files[..i])| && programSize == |Image(files[..i])| && programHash == 0
        invariant modules == Layout(files[..i], pcStart)
        invariant Image(files[..i]) == [] || ptr <= mem.Length
        invariant mem[..] == Store(old(mem[..]), pcStart, Image(files[..i]))
        invariant Placed(files, pcStart, mem.Length) == i + Placed(files[i..], ptr, mem.Length)
      {
        assert files[i..][1..] == files[i + 1..];
        PlacedStep(files[i..], ptr, mem.Length);
        StoreTwice(old(mem[..]), pcStart, Image(files[..i]), Delivered(files[i], ptr, mem.Length));
        var got := PlaceFile(files[i], ptr);
        if got < 0 {
          modules := [];
          return false;
        }
        SplitAt(files, i);
        LayoutStep(files, pcStart, i);
        modules := modules + [ModuleInfo(files[i].name, ptr, got)];
        ptr := ptr + got;
        programSize := programSize + got;
        i := i + 1;
      }
      NothingPlaced(ptr, mem.Length);
      assert files[..i] == files && files[i..] == [];
      WrittenAll(files, pcStart, mem.Length);
      ok := true;
    }

    /** One file of the loop: open, measure, check the bound, read. A negative result is a failure. */
    method PlaceFile(f: File, ptr: nat) returns (got: int)
      modifies mem
      ensures got >= 0 <==> Readable(f) && (f.size == 0 || ptr + f.size <= mem.Length)
      ensures got >= 0 ==> got == |f.data| && Delivered(f, ptr, mem.Length) == f.data
      ensures mem[..] == Store(old(mem[..]), ptr, Delivered(f, ptr, mem.Length))
    {
      if f.Missing? {
        return -1;
      }
      if f.size == 0 {
        return 0;
      }
      if ptr + f.size > mem.Length {
        return -1;
      }
      CopyIn(ptr, f.data);
      if |f.data| != f.size {
        return -1;
      }
      got := |f.data|;
    }

    /** `vm_calculate_program_hash`. */
    method CalculateProgramHash() returns (hash: bv32)
      requires crc.Valid()
      modifies crc, crc.table
      ensures crc.Valid()
      ensures hash == HashOf(mem[..], pcStart, programSize)
    {
      if programSize == 0 || pcStart >= mem.Length {
        return 0;
      }
      var size := Min(programSize, mem.Length - pcStart);
      hash := crc.Compute(mem[pcStart..pcStart + size]);
    }
  }

  /** Hashing the files one after the other through one register gives the program hash. */
  lemma {:induction false} HashFileByFile(files: seq<File>, c: bv32)
    ensures Register(c, Image(files)) == FoldFiles(c, files)
    decreases |files|
  {
    if files != [] {
      var data := if files[0].File? then files[0].data else [];
      RegisterAppend(c, data, Image(files[1..]));
      HashFileByFile(files[1..], Register(c, data));
    }
  }

  /** `crc32_update` over the files. */
  function FoldFiles(c: bv32, files: seq<File>): bv32
    decreases |files|
  {
    if files == [] then c
    else FoldFiles(Register(c, if files[0].File? then files[0].data else []), files[1..])
  }
}
