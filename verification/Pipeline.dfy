/** From listings to the words the VM fetches: disassembler, assembler, loader and memory access together. */
module Pipeline {
  import opened Words
  import opened Encoding
  import opened AssembleFile
  import opened Crc32
  import opened VmStrings
  import opened Machine
  import opened Loader

  lemma {:induction false} FlatAt(words: seq<bv32>, i: nat, j: nat)
    requires i < |words| && j < 4
    ensures 4 * i + j < |Flat(words)| && Flat(words)[4 * i + j] == LittleEndian(words[i])[j]
  {
    hide LittleEndian;
    if i > 0 {
      FlatAt(words[1..], i - 1, j);
    }
  }

  lemma ByteAt(m: Bytes, a: nat, words: seq<bv32>, i: nat, j: nat)
    requires a + 4 * |words| <= |m| && i < |words| && j < 4
    requires m[a..a + 4 * |words|] == Flat(words)
    ensures m[a + 4 * i + j] == LittleEndian(words[i])[j]
  {
    FlatAt(words, i, j);
    hide LittleEndian, Flat;
    assert m[a + (4 * i + j)] == m[a..a + 4 * |words|][4 * i + j];
  }

  /** A program stored in memory is fetched back word by word. */
  lemma FetchBack(m: Bytes, a: nat, words: seq<bv32>, i: nat)
    requires a + 4 * |words| <= |m| && i < |words|
    requires m[a..a + 4 * |words|] == Flat(words)
    ensures WordAt(m, a + 4 * i) == words[i]
  {
    hide LittleEndian, Flat, WordOf;
    ByteAt(m, a, words, i, 0);
    ByteAt(m, a, words, i, 1);
    ByteAt(m, a, words, i, 2);
    ByteAt(m, a, words, i, 3);
    Reassemble(words[i]);
  }

  lemma Reassemble(w: bv32)
    ensures WordOf(LittleEndian(w)[0], LittleEndian(w)[1], LittleEndian(w)[2], LittleEndian(w)[3]) == w
  {
    WordOfBytes(w);
    hide WordOf;
  }

  /** The files an assembler makes of the listings of some programs. */
  predicate Assembled(files: seq<File>, programs: seq<seq<bv32>>, rawHalt: bool) {
    |files| == |programs| &&
    forall k :: 0 <= k < |files| ==>
      Readable(files[k]) && Assemble(Listing(programs[k]), rawHalt, 0) == Outcome(files[k].data, None)
      && forall i :: 0 <= i < |programs[k]| ==> Restored(programs[k][i], rawHalt)
  }

  lemma FileIsFlat(files: seq<File>, programs: seq<seq<bv32>>, rawHalt: bool, k: nat)
    requires Assembled(files, programs, rawHalt) && k < |files|
    ensures |files| == |programs| && files[k].File? && files[k].data == Flat(programs[k])
  {
    hide Restored, Assemble, Listing, Flat;
    ProgramRoundTrip(programs[k], rawHalt, 0);
  }

  /** Disassemble any number of programs, assemble the listings and load the files: the VM fetches, in
      each module, the words of its program. */
  lemma ListingsRun(m: Bytes, start: nat, files: seq<File>, programs: seq<seq<bv32>>, rawHalt: bool, k: nat, i: nat)
    requires Assembled(files, programs, rawHalt) && (Image(files) == [] || start + |Image(files)| <= |m|)
    requires k < |files| && i < |programs[k]|
    ensures var loaded, mod := Store(m, start, Image(files)), Layout(files, start)[k];
            && mod.size == 4 * |programs[k]| && mod.addr + mod.size <= |loaded|
            && WordAt(loaded, mod.addr + 4 * i) == programs[k][i]
  {
    hide Layout, Image, Assembled, Store, WordAt, Flat;
    FileIsFlat(files, programs, rawHalt, k);
    var mod := Layout(files, start)[k];
    LayoutSize(files, start, k);
    ModuleHolds(files, start, m, k);
    FetchBack(Store(m, start, Image(files)), mod.addr, programs[k], i);
  }

  lemma {:induction false} LayoutSize(files: seq<File>, start: nat, k: nat)
    requires k < |files| && files[k].File?
    ensures Layout(files, start)[k].size == |files[k].data|
  {
    LayoutContiguous(files, start, k);
    SplitAt(files, k);
  }
}
