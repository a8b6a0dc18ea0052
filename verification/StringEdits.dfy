/** The string handlers of funcs.c on the memory array itself. Each is proved to leave memory as the
    edit of `VmStrings` with its name describes. */
module StringEdits {
  import opened VmStrings

  /** `safe_strlen_at`. */
  method StrLenAt(mem: array<bv8>, a: nat) returns (n: nat)
    ensures n == StrLen(mem[..], a)
  {
    var rem := Remaining(mem[..], a);
    n := 0;
    while n < rem && mem[a + n] != 0
      invariant n <= rem
      invariant StrLen(mem[..], a) == n + StrLen(mem[..], a + n)
    {
      n := n + 1;
    }
  }

  /** `memmove`, and `memcpy` on regions that do not overlap. */
  method MoveBytes(mem: array<bv8>, dst: nat, src: nat, n: nat)
    requires dst + n <= mem.Length && src + n <= mem.Length
    modifies mem
    ensures mem[..] == Move(old(mem[..]), dst, src, n)
  {
    forall i | 0 <= i < n {
      mem[dst + i] := mem[src + i];
    }
  }

  /** `safe_memmove`. */
  method SafeMoveBytes(mem: array<bv8>, dst: nat, src: nat, n: nat)
    modifies mem
    ensures mem[..] == SafeMove(old(mem[..]), dst, src, n)
  {
    var k := Min(n, Min(Remaining(mem[..], dst), Remaining(mem[..], src)));
    if k > 0 {
      MoveBytes(mem, dst, src, k);
    }
  }

  /** `safe_set_null`. */
  method SetNullAt(mem: array<bv8>, a: nat)
    modifies mem
    ensures mem[..] == SetNull(old(mem[..]), a)
  {
    if a < mem.Length {
      mem[a] := 0;
    }
  }

  /** `op_concat` from the two addresses on. */
  method OpConcat(mem: array<bv8>, dest: nat, src: nat)
    modifies mem
    ensures mem[..] == Concat(old(mem[..]), dest, src)
  {
    hide StrLen, Write, Move, SetNull;
    if dest >= mem.Length || src >= mem.Length {
      return;
    }
    var n := StrLenAt(mem, dest);
    var srcLen := StrLenAt(mem, src);
    var rem := Remaining(mem[..], dest);
    var room := if rem > n then rem - n - 1 else 0;
    var k := Min(srcLen, room);
    assert Concat(mem[..], dest, src) == SetNull(Move(mem[..], dest + n, src, k), dest + n + k);
    NoMove(mem[..], dest + n, src);
    if k > 0 {
      MoveBytes(mem, dest + n, src, k);
    }
    SetNullAt(mem, dest + n + k);
  }

  lemma NoMove(m: Bytes, dst: nat, src: nat)
    requires dst <= |m| && src <= |m|
    ensures Move(m, dst, src, 0) == m
  {
  }

  /** `op_left`. */
  method OpLeft(mem: array<bv8>, a: nat, n: nat)
    modifies mem
    ensures mem[..] == Left(old(mem[..]), a, n)
  {
    hide StrLen, Write;
    if a >= mem.Length {
      return;
    }
    var len := StrLenAt(mem, a);
    if n >= len {
      return;
    }
    SetNullAt(mem, a + n);
  }

  /** `op_right`. */
  method OpRight(mem: array<bv8>, a: nat, n: nat)
    modifies mem
    ensures mem[..] == Right(old(mem[..]), a, n)
  {
    hide StrLen, Write, SafeMove, SetNull;
    if a >= mem.Length {
      return;
    }
    var len := StrLenAt(mem, a);
    if len == 0 || n >= len {
      return;
    }
    SafeMoveBytes(mem, a, a + len - n, n);
    SetNullAt(mem, a + n);
  }

  /** `op_mid`. */
  method OpMid(mem: array<bv8>, a: nat, start: nat)
    modifies mem
    ensures mem[..] == Mid(old(mem[..]), a, start)
  {
    hide StrLen, Write, SafeMove, SetNull;
    if a >= mem.Length {
      return;
    }
    var len := StrLenAt(mem, a);
    if start >= len {
      SetNullAt(mem, a);
      return;
    }
    SafeMoveBytes(mem, a, a + start, len - start);
    SetNullAt(mem, a + len - start);
  }

  /** `op_insert`. Its test against the end of memory (lines 272 to 274) never succeeds: see the assertion. */
  method OpInsert(mem: array<bv8>, dest: nat, ins: nat, at: nat)
    modifies mem
    ensures mem[..] == Insert(old(mem[..]), dest, ins, at)
  {
    hide StrLen, Write, Move;
    if dest >= mem.Length || ins >= mem.Length {
      return;
    }
    var n := StrLenAt(mem, dest);
    var insLen := StrLenAt(mem, ins);
    var pos := Min(at, n);
    var rem := Remaining(mem[..], dest);
    var room := if rem > n then rem - n - 1 else 0;
    var k := Min(insLen, room);
    if k > 0 {
      var tail := n - pos;
      assert dest + pos + k + tail + 1 <= mem.Length;
      MoveBytes(mem, dest + pos + k, dest + pos, tail + 1);
      MoveBytes(mem, dest + pos, ins, k);
    }
  }

  /** `op_delete`. */
  method OpDelete(mem: array<bv8>, a: nat, pos: nat, count: nat)
    modifies mem
    ensures mem[..] == Delete(old(mem[..]), a, pos, count)
  {
    hide StrLen, Write, SafeMove;
    if a >= mem.Length {
      return;
    }
    var len := StrLenAt(mem, a);
    if pos >= len {
      return;
    }
    var c := Min(count, len - pos);
    SafeMoveBytes(mem, a + pos, a + pos + c, len - pos - c + 1);
  }

  /** `op_replace`. */
  method OpReplace(mem: array<bv8>, a: nat, rep: nat, pos: nat)
    modifies mem
    ensures mem[..] == Replace(old(mem[..]), a, rep, pos)
  {
    hide StrLen, Write, Move, SafeMove, OpenGap, Room;
    if a >= mem.Length || rep >= mem.Length {
      return;
    }
    var len := StrLenAt(mem, a);
    var repLen := StrLenAt(mem, rep);
    if pos > len {
      return;
    }
    if pos + repLen > len {
      repLen := len - pos;
    }
    PrefixKept(mem[..], a, pos, repLen);
    SafeMoveBytes(mem, a + pos, a + pos + repLen, len - pos - repLen + 1);
    Refill(mem, a, pos, rep, repLen);
  }

  /** The insertion inside `op_replace`. */
  method Refill(mem: array<bv8>, a: nat, pos: nat, rep: nat, count: nat)
    requires a < mem.Length && rep + count <= mem.Length && pos <= StrLen(mem[..], a)
    modifies mem
    ensures var k := Min(count, old(Room(mem[..], a)));
            mem[..] == if k == 0 then old(mem[..]) else OpenGap(old(mem[..]), a + pos, old(StrLen(mem[..], a)) - pos + 1, rep, k)
  {
    hide StrLen, Write, Move;
    var rem := Remaining(mem[..], a);
    var now := StrLenAt(mem, a);
    var room := if rem > now then rem - now - 1 else 0;
    var k := Min(count, room);
    if k > 0 {
      MoveBytes(mem, a + pos + k, a + pos, now - pos + 1);
      MoveBytes(mem, a + pos, rep, k);
    }
  }

  lemma PrefixKept(m: Bytes, a: nat, pos: nat, k: nat)
    requires a < |m| && pos + k <= StrLen(m, a)
    ensures StrLen(SafeMove(m, a + pos, a + pos + k, StrLen(m, a) - pos - k + 1), a) >= pos
  {
    hide StrLen, Write;
    StrLenAtLeast(SafeMove(m, a + pos, a + pos + k, StrLen(m, a) - pos - k + 1), a, pos);
  }
}
