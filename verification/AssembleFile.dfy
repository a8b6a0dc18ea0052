/** The main loop of converter.c over a whole source text, and the way of a program from words to text,
    to bytes, to memory and back to words. */
module AssembleFile {
  import opened Words
  import opened Encoding
  import opened OpTable
  import opened Assembler
  import opened AssemblerLaws
  import opened VmStrings
  import opened Machine

  const MAX_LINE: nat := 512

  /** How many characters `fgets` takes: up to and including a line end, or as many as there is room for. */
  function LineLength(text: string, room: nat): (n: nat)
    ensures n <= |text| && n <= room
    ensures text != [] && room > 0 ==> n > 0
  {
    if text == [] || room == 0 then 0
    else if text[0] == '\n' then 1
    else 1 + LineLength(text[1..], room - 1)
  }

  /** Where and why assembling stopped. */
  datatype Failure = Failure(line: nat, error: Error)

  /** The bytes written, also those before a failure. */
  datatype Outcome = Outcome(bytes: Bytes, failure: Option<Failure>)

  /** Assembling the text that follows line number `line`. */
  function Assemble(text: string, rawHalt: bool, line: nat): Outcome
    decreases |text|
  {
    if text == [] then Outcome([], None)
    else
      var n := LineLength(text, MAX_LINE - 1);
      match AssembleLine(Before(text[..n], '\0'), rawHalt)
      case Blank => Assemble(text[n..], rawHalt, line + 1)
      case Word(w) =>
        var rest := Assemble(text[n..], rawHalt, line + 1);
        Outcome(LittleEndian(w) + rest.bytes, rest.failure)
      case Fails(e) => Outcome([], Some(Failure(line + 1, e)))
  }

  lemma AppendAssoc(a: Bytes, b: Bytes, c: Bytes)
    ensures a + (b + c) == (a + b) + c
  {
  }

  /** The loop of `main`. */
  method AssembleText(text: string, rawHalt: bool) returns (out: Bytes, failure: Option<Failure>)
    ensures Outcome(out, failure) == Assemble(text, rawHalt, 0)
  {
    hide AssembleLine, LittleEndian, LineLength, Before;
    out, failure := [], None;
    var line := 0;
    var p := 0;
    assert text[0..] == text;
    while p < |text|
      invariant 0 <= p <= |text| && failure == None
      invariant var rest := Assemble(text[p..], rawHalt, line);
                Assemble(text, rawHalt, 0) == Outcome(out + rest.bytes, rest.failure)
    {
      ghost var before := text[p..];
      var n := LineLength(text[p..], MAX_LINE - 1);
      var l := AssembleLine(Before(text[p..][..n], '\0'), rawHalt);
      line := line + 1;
      if l.Fails? {
        failure := Some(Failure(line, l.error));
        return;
      }
      if l.Word? {
        AppendAssoc(out, LittleEndian(l.w), Assemble(before[n..], rawHalt, line).bytes);
        out := out + LittleEndian(l.w);
      }
      p := p + n;
      assert before[n..] == text[p..];
    }
  }

  lemma {:induction false} FullLine(text: string, room: nat)
    requires |text| >= room && forall i :: 0 <= i < room ==> text[i] != '\n'
    ensures LineLength(text, room) == room
  {
    if room > 0 {
      FullLine(text[1..], room - 1);
    }
  }

  /** A comment longer than the line buffer spills: what comes after 511 characters is assembled. */
  lemma LongCommentSpills(comment: string, rest: string, rawHalt: bool, line: nat)
    requires |comment| == 511 && comment[0] == ';' && '\n' !in comment && '\0' !in comment
    ensures Assemble(comment + rest, rawHalt, line) == Assemble(rest, rawHalt, line + 1)
  {
    hide Tokens, OpFrom, SameName, Encode, LineLength, Before, IsSpace;
    var text := comment + rest;
    FullLine(text, 511);
    assert text[..511] == comment && text[511..] == rest;
    BeforeAll(comment, '\0');
    CommentLine(comment, rawHalt);
  }

  lemma CommentLine(comment: string, rawHalt: bool)
    requires comment != [] && comment[0] == ';'
    ensures AssembleLine(comment, rawHalt) == Blank
  {
    hide Tokens, OpFrom, SameName, Encode, Before;
  }

  // ------------------------------------------------------------------
  // Listings
  // ------------------------------------------------------------------

  /** The disassembly of a program, one line a word. */
  function Listing(words: seq<bv32>): string {
    if words == [] then "" else Print(words[0]) + "\n" + Listing(words[1..])
  }

  /** The program in memory order. */
  function Flat(words: seq<bv32>): (bytes: Bytes)
    ensures |bytes| == 4 * |words|
  {
    if words == [] then [] else LittleEndian(words[0]) + Flat(words[1..])
  }

  lemma {:induction false} LineLengthOf(line: string, rest: string, room: nat)
    requires '\n' !in line && |line| < room
    ensures LineLength(line + "\n" + rest, room) == |line| + 1
  {
    var text := line + "\n" + rest;
    if line == [] {
      assert text[0] == '\n';
    } else {
      assert text[1..] == line[1..] + "\n" + rest;
      LineLengthOf(line[1..], rest, room - 1);
    }
  }

  lemma DecLength(n: nat)
    requires n < 1000
    ensures |Dec(n)| <= 3
  {
    DecShape(n);
  }

  lemma CLength(w: bv32)
    ensures |PrintC(w)| <= 5
  {
    DecLength(FieldC(w) as nat);
    var v := Int8(FieldC(w));
    DecLength(if v < 0 then -v else v);
  }

  lemma PrintLength(w: bv32)
    ensures |Print(w)| < MAX_LINE - 1
  {
    PrintedChars(Opcode(w) as nat);
    DecLength(FieldA(w) as nat);
    DecLength(FieldB(w) as nat);
    CLength(w);
    hide Dec, PrintC, PrintName, Hex, Opcode, FieldA, FieldB;
  }

  lemma {:induction false} BeforeEnd(s: string, c: char)
    requires c !in s
    ensures Before(s + [c], c) == s
  {
    if s == [] {
      assert (s + [c])[0] == c;
    } else {
      assert (s + [c])[1..] == s[1..] + [c];
      assert c !in s[1..];
      BeforeEnd(s[1..], c);
      assert s == [s[0]] + s[1..];
    }
  }

  lemma NoEnd(s: string)
    requires Plain(s)
    ensures Before(s + "\n", '\0') == s + "\n" && Before(s + "\n", '\n') == s && Before(s, '\n') == s
  {
    BeforeAll(s + "\n", '\0');
    BeforeEnd(s, '\n');
    BeforeAll(s, '\n');
  }

  lemma NoSkip(s: string)
    requires s != [] && !IsSpace(s[0])
    ensures SkipSpace(s + "\n") == s + "\n" && SkipSpace(s) == s
  {
    assert (s + "\n")[0] == s[0];
  }

  /** The line end makes no difference to the assembler. */
  lemma LineEnd(s: string, rawHalt: bool)
    requires s != [] && !IsSpace(s[0]) && s[0] != ';' && Plain(s)
    ensures Before(s + "\n", '\0') == s + "\n"
    ensures AssembleLine(s + "\n", rawHalt) == AssembleLine(s, rawHalt)
  {
    hide Tokens, SameName, OpFrom, Encode, Before, SkipSpace, Plain, IsSpace;
    NoEnd(s);
    NoSkip(s);
  }

  /** The first line of a listing. */
  lemma ListingStep(words: seq<bv32>, rawHalt: bool, line: nat)
    requires words != []
    ensures var rest := Assemble(Listing(words[1..]), rawHalt, line + 1);
            Assemble(Listing(words), rawHalt, line) ==
            match ReadBack(words[0], rawHalt)
            case Blank => rest
            case Word(w) => Outcome(LittleEndian(w) + rest.bytes, rest.failure)
            case Fails(e) => Outcome([], Some(Failure(line + 1, e)))
  {
    var w, rest := words[0], Listing(words[1..]);
    var p := Print(w);
    PrintTokens(w);
    PrintLength(w);
    LineLengthOf(p, rest, MAX_LINE - 1);
    LineEnd(p, rawHalt);
    AssemblePrinted(w, rawHalt);
    hide Print, ReadBack, LineLength, AssembleLine, Before, LittleEndian;
    var text := p + "\n" + rest;
    assert text[..|p| + 1] == p + "\n" && text[|p| + 1..] == rest;
  }

  /** The words a listing gives back unchanged. */
  predicate Restored(w: bv32, rawHalt: bool) {
    Assemblable(w) && (rawHalt || Opcode(w) as nat != HALT)
  }

  lemma SameFour(a: bv32, b: bv32, x: Bytes, y: Bytes)
    requires LittleEndian(a) + x == LittleEndian(b) + y
    ensures a == b && x == y
  {
    var p, q := LittleEndian(a), LittleEndian(b);
    WordOfBytes(a);
    WordOfBytes(b);
    hide WordOf, LittleEndian;
    assert (p + x)[..4] == p && (q + y)[..4] == q && (p + x)[4..] == x && (q + y)[4..] == y;
    EndiansAgree(a, b);
  }

  lemma EndiansAgree(a: bv32, b: bv32)
    requires LittleEndian(a) == LittleEndian(b)
    ensures a == b
  {
    hide WordOf;
    WordOfBytes(a);
    WordOfBytes(b);
    assert LittleEndian(a)[0] == LittleEndian(b)[0] && LittleEndian(a)[1] == LittleEndian(b)[1];
    assert LittleEndian(a)[2] == LittleEndian(b)[2] && LittleEndian(a)[3] == LittleEndian(b)[3];
  }

  lemma ReadBackIff(w: bv32, rawHalt: bool)
    ensures ReadBack(w, rawHalt) == Word(w) <==> Restored(w, rawHalt)
    ensures !ReadBack(w, rawHalt).Blank?
  {
    AssemblePrinted(w, rawHalt);
    RoundTripIff(w, rawHalt);
    hide Pack, Opcode, HasImm, Assemblable, AssembleLine;
  }

  /** Disassembling a program and assembling the text gives the program's bytes without an error, for
      exactly the programs all of whose words the assembler can build. */
  lemma {:induction false} ProgramRoundTrip(words: seq<bv32>, rawHalt: bool, line: nat)
    ensures Assemble(Listing(words), rawHalt, line) == Outcome(Flat(words), None) <==>
            forall i :: 0 <= i < |words| ==> Restored(words[i], rawHalt)
    decreases |words|
  {
    hide Print, Restored, ReadBack, LittleEndian;
    if words != [] {
      var w := words[0];
      ListingStep(words, rawHalt, line);
      ReadBackIff(w, rawHalt);
      ProgramRoundTrip(words[1..], rawHalt, line + 1);
      var rest := Assemble(Listing(words[1..]), rawHalt, line + 1);
      if ReadBack(w, rawHalt).Word? && LittleEndian(ReadBack(w, rawHalt).w) + rest.bytes == LittleEndian(w) + Flat(words[1..]) {
        SameFour(ReadBack(w, rawHalt).w, w, rest.bytes, Flat(words[1..]));
      }
      assert (forall i :: 0 <= i < |words| ==> Restored(words[i], rawHalt)) <==>
             Restored(w, rawHalt) && forall i :: 0 <= i < |words[1..]| ==> Restored(words[1..][i], rawHalt) by {
        forall i | 0 <= i < |words| && Restored(w, rawHalt) && forall i :: 0 <= i < |words[1..]| ==> Restored(words[1..][i], rawHalt)
          ensures Restored(words[i], rawHalt)
        {
          assert i == 0 || words[i] == words[1..][i - 1];
        }
      }
    }
  }
}
