/** The assembler on a source text of any lines: line by line, up to the first faulty one. */
module SourceLines {
  import opened Words
  import opened Encoding
  import opened OpTable
  import opened Assembler
  import opened AssemblerLaws
  import opened VmStrings
  import opened AssembleFile

  /** A line that fits into the buffer of `fgets`. */
  predicate InBuffer(line: string) {
    |line| < MAX_LINE - 1 && '\n' !in line && '\0' !in line
  }

  function Joined(lines: seq<string>): string {
    if lines == [] then "" else lines[0] + "\n" + Joined(lines[1..])
  }

  /** The bytes of a line. */
  function Code(line: string, rawHalt: bool): Bytes {
    match AssembleLine(line, rawHalt)
    case Word(w) => LittleEndian(w)
    case _ => []
  }

  /** The bytes of the lines in turn. */
  function Codes(lines: seq<string>, rawHalt: bool): Bytes {
    if lines == [] then [] else Code(lines[0], rawHalt) + Codes(lines[1..], rawHalt)
  }

  lemma {:induction false} SkipLine(s: string)
    requires '\n' !in s
    ensures '\n' !in SkipSpace(s)
    ensures SkipSpace(s + "\n") == if SkipSpace(s) == [] then [] else SkipSpace(s) + "\n"
  {
    if s == [] {
      assert s + "\n" == ['\n'];
    } else {
      assert (s + "\n")[0] == s[0] && (s + "\n")[1..] == s[1..] + "\n";
      if IsSpace(s[0]) {
        SkipLine(s[1..]);
      }
    }
  }

  /** The line end makes no difference to any line. */
  lemma AnyLineEnd(s: string, rawHalt: bool)
    requires '\n' !in s
    ensures AssembleLine(s + "\n", rawHalt) == AssembleLine(s, rawHalt)
  {
    hide Tokens, SameName, OpFrom, Encode, Before, SkipSpace;
    SkipLine(s);
    var p := SkipSpace(s);
    BeforeEnd(p, '\n');
    BeforeAll(p, '\n');
  }

  lemma LineOnce(line: string, rest: string, rawHalt: bool, n: nat)
    requires InBuffer(line)
    ensures Assemble(line + "\n" + rest, rawHalt, n) ==
            match AssembleLine(line, rawHalt)
            case Blank => Assemble(rest, rawHalt, n + 1)
            case Word(w) => var r := Assemble(rest, rawHalt, n + 1); Outcome(LittleEndian(w) + r.bytes, r.failure)
            case Fails(e) => Outcome([], Some(Failure(n + 1, e)))
  {
    hide AssembleLine, LittleEndian, LineLength, Before;
    var text := line + "\n" + rest;
    LineLengthOf(line, rest, MAX_LINE - 1);
    assert text[..|line| + 1] == line + "\n" && text[|line| + 1..] == rest;
    BeforeAll(line + "\n", '\0');
    AnyLineEnd(line, rawHalt);
  }

  /** A text of lines, the first faulty one of which is number `k` when there is one: the bytes of the lines
      before it, and its number and fault. */
  lemma {:induction false} LinesInTurn(lines: seq<string>, rawHalt: bool, n: nat, k: nat)
    requires k <= |lines| && forall i :: 0 <= i < |lines| ==> InBuffer(lines[i])
    requires forall i :: 0 <= i < k ==> !AssembleLine(lines[i], rawHalt).Fails?
    requires k < |lines| ==> AssembleLine(lines[k], rawHalt).Fails?
    ensures Assemble(Joined(lines), rawHalt, n) ==
            Outcome(Codes(lines[..k], rawHalt), if k < |lines| then Some(Failure(n + k + 1, AssembleLine(lines[k], rawHalt).error)) else None)
    decreases k
  {
    hide AssembleLine, LittleEndian, InBuffer;
    if lines != [] {
      LineOnce(lines[0], Joined(lines[1..]), rawHalt, n);
      if k > 0 {
        LinesInTurn(lines[1..], rawHalt, n + 1, k - 1);
        assert lines[..k][0] == lines[0] && lines[..k][1..] == lines[1..][..k - 1];
      }
    }
  }
}
