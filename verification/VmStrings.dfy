/** NUL-terminated strings edited in place in VM memory (funcs.c), and the laws of the edits. */
module VmStrings {

  type Bytes = seq<bv8>

  // ------------------------------------------------------------------
  // Memory as a value
  // ------------------------------------------------------------------

  /** `safe_mem_remaining`. */
  function Remaining(m: Bytes, a: nat): nat {
    if a >= |m| then 0 else |m| - a
  }

  /** `safe_strlen_at`: the number of bytes before the first NUL or the end of memory. */
  function StrLen(m: Bytes, a: nat): (n: nat)
    ensures n <= Remaining(m, a)
    ensures forall i :: a <= i < a + n ==> m[i] != 0
    ensures n < Remaining(m, a) ==> m[a + n] == 0
    decreases |m| - a
  {
    if a < |m| && m[a] != 0 then 1 + StrLen(m, a + 1) else 0
  }

  lemma StrLenAtLeast(m: Bytes, a: nat, n: nat)
    requires a + n <= |m| && forall i :: a <= i < a + n ==> m[i] != 0
    ensures StrLen(m, a) >= n
  {
  }

  /** The string at an address. */
  function Text(m: Bytes, a: nat): (s: Bytes)
    requires a <= |m|
    ensures |s| == StrLen(m, a) && 0 !in s
    ensures forall i :: 0 <= i < |s| ==> s[i] == m[a + i]
  {
    m[a..a + StrLen(m, a)]
  }

  /** A NUL ends the string before memory ends. */
  predicate Terminated(m: Bytes, a: nat) {
    a + StrLen(m, a) < |m|
  }

  function Write(m: Bytes, a: nat, data: Bytes): (r: Bytes)
    requires a + |data| <= |m|
    ensures |r| == |m|
    ensures forall i :: 0 <= i < |m| ==> r[i] == if a <= i < a + |data| then data[i - a] else m[i]
  {
    m[..a] + data + m[a + |data|..]
  }

  /** `memmove` and, on regions that do not overlap, `memcpy`. */
  function Move(m: Bytes, dst: nat, src: nat, n: nat): (r: Bytes)
    requires dst + n <= |m| && src + n <= |m|
    ensures |r| == |m|
    ensures forall i :: 0 <= i < |m| ==> r[i] == if dst <= i < dst + n then m[src + i - dst] else m[i]
  {
    Write(m, dst, m[src..src + n])
  }

  /** Moves the `tail` bytes at `p` up by `k` and copies `k` bytes from `src` into the gap. */
  function OpenGap(m: Bytes, p: nat, tail: nat, src: nat, k: nat): (r: Bytes)
    requires p + k + tail <= |m| && src + k <= |m|
    ensures |r| == |m|
  {
    Move(Move(m, p + k, p, tail), p, src, k)
  }

  function Min(a: nat, b: nat): nat { if a < b then a else b }

  /** `safe_memmove`. */
  function SafeMove(m: Bytes, dst: nat, src: nat, n: nat): (r: Bytes)
    ensures |r| == |m|
  {
    var k := Min(n, Min(Remaining(m, dst), Remaining(m, src)));
    if k == 0 then m else Move(m, dst, src, k)
  }

  /** `safe_set_null`, and the guarded stores of a NUL. */
  function SetNull(m: Bytes, a: nat): (r: Bytes)
    ensures |r| == |m|
  {
    if a < |m| then m[a := 0] else m
  }

  /** How many bytes still fit behind a string and before its NUL. */
  function Room(m: Bytes, a: nat): nat {
    if Remaining(m, a) > StrLen(m, a) then Remaining(m, a) - StrLen(m, a) - 1 else 0
  }

  // ------------------------------------------------------------------
  // The edits
  // ------------------------------------------------------------------

  function Concat(m: Bytes, dest: nat, src: nat): (r: Bytes)
    ensures |r| == |m|
  {
    if dest >= |m| || src >= |m| then m
    else
      var n := StrLen(m, dest);
      var k := Min(StrLen(m, src), Room(m, dest));
      SetNull(Move(m, dest + n, src, k), dest + n + k)
  }

  function Left(m: Bytes, a: nat, n: nat): (r: Bytes)
    ensures |r| == |m|
  {
    if a >= |m| || n >= StrLen(m, a) then m else SetNull(m, a + n)
  }

  function Right(m: Bytes, a: nat, n: nat): (r: Bytes)
    ensures |r| == |m|
  {
    if a >= |m| || n >= StrLen(m, a) then m
    else SetNull(SafeMove(m, a, a + StrLen(m, a) - n, n), a + n)
  }

  function Mid(m: Bytes, a: nat, start: nat): (r: Bytes)
    ensures |r| == |m|
  {
    if a >= |m| then m
    else
      var n := StrLen(m, a);
      if start >= n then SetNull(m, a)
      else SetNull(SafeMove(m, a, a + start, n - start), a + n - start)
  }

  function Insert(m: Bytes, dest: nat, ins: nat, at: nat): (r: Bytes)
    ensures |r| == |m|
  {
    if dest >= |m| || ins >= |m| then m
    else
      var n := StrLen(m, dest);
      var pos := Min(at, n);
      var k := Min(StrLen(m, ins), Room(m, dest));
      if k == 0 then m
      else OpenGap(m, dest + pos, n - pos + 1, ins, k)
  }

  function Delete(m: Bytes, a: nat, pos: nat, count: nat): (r: Bytes)
    ensures |r| == |m|
  {
    if a >= |m| || pos >= StrLen(m, a) then m
    else
      var n := StrLen(m, a);
      var c := Min(count, n - pos);
      SafeMove(m, a + pos, a + pos + c, n - pos - c + 1)
  }

  function Replace(m: Bytes, a: nat, rep: nat, pos: nat): (r: Bytes)
    ensures |r| == |m|
  {
    if a >= |m| || rep >= |m| || pos > StrLen(m, a) then m
    else
      var n := StrLen(m, a);
      var c := Min(StrLen(m, rep), n - pos);
      var cut := SafeMove(m, a + pos, a + pos + c, n - pos - c + 1);
      var n' := StrLen(cut, a);
      var k := Min(c, Room(cut, a));
      StrLenAtLeast(cut, a, pos);
      if k == 0 then cut
      else OpenGap(cut, a + pos, n' - pos + 1, rep, k)
  }

  // ------------------------------------------------------------------
  // Laws
  // ------------------------------------------------------------------

  lemma TextIs(m: Bytes, a: nat, u: Bytes)
    requires a + |u| < |m| && m[a + |u|] == 0 && 0 !in u
    requires forall i :: 0 <= i < |u| ==> m[a + i] == u[i]
    ensures Text(m, a) == u && Terminated(m, a)
  {
    forall i | a <= i < a + |u|
      ensures m[i] != 0
    {
      assert m[a + (i - a)] == u[i - a] && u[i - a] in u;
    }
    StrLenAtLeast(m, a, |u|);
  }

  /** Nothing outside `[lo, hi)` differs. */
  predicate Frame(m: Bytes, m': Bytes, lo: nat, hi: nat) {
    |m'| == |m| && forall i :: 0 <= i < |m| && !(lo <= i < hi) ==> m'[i] == m[i]
  }

  /** The `k` bytes from `src` lie outside `[lo, hi)`: a string may well be inserted behind itself. */
  predicate Apart(src: nat, k: nat, lo: nat, hi: nat) {
    src + k <= lo || hi <= src
  }

  /** How much of the source string an edit of the destination can take in. */
  function Fitting(m: Bytes, dest: nat, src: nat): (t: Bytes)
    requires dest <= |m| && src <= |m|
    ensures 0 !in t && |t| <= Room(m, dest)
  {
    Text(m, src)[..Min(StrLen(m, src), Room(m, dest))]
  }

  lemma FittingAll(m: Bytes, dest: nat, src: nat)
    requires dest <= |m| && src <= |m| && StrLen(m, src) <= Room(m, dest)
    ensures Fitting(m, dest, src) == Text(m, src)
  {
  }

  /** `op_concat` moves what fits behind the string and ends it. */
  lemma ConcatIs(m: Bytes, dest: nat, src: nat)
    requires dest < |m| && src < |m| && Terminated(m, dest)
    ensures var end, k := dest + StrLen(m, dest), |Fitting(m, dest, src)|;
            && end + k < |m| && src + k <= |m|
            && Concat(m, dest, src) == Move(m, end, src, k)[end + k := 0]
  {
    hide StrLen, Text, Write, Move;
  }

  /** `op_concat`, byte by byte. */
  lemma ConcatAt(m: Bytes, dest: nat, src: nat)
    requires dest < |m| && src < |m| && Terminated(m, dest)
    ensures var r, end, k := Concat(m, dest, src), dest + StrLen(m, dest), |Fitting(m, dest, src)|;
            && end + k < |m| && src + k <= |m| && r[end + k] == 0
            && (forall i :: end <= i < end + k ==> r[i] == m[src + i - end])
            && Frame(m, r, end, end + k + 1)
  {
    hide StrLen, Text, Write, Concat, Fitting, Terminated, Room;
    ConcatIs(m, dest, src);
  }

  /** `op_concat` appends as much of the source as memory holds, also when source and destination are
      the same string, and ends the result with a NUL. */
  lemma ConcatAppends(m: Bytes, dest: nat, src: nat)
    requires dest < |m| && src < |m| && Terminated(m, dest)
    ensures var r := Concat(m, dest, src);
            && Terminated(r, dest)
            && Text(r, dest) == Text(m, dest) + Fitting(m, dest, src)
            && Frame(m, r, dest + StrLen(m, dest), dest + StrLen(m, dest) + |Fitting(m, dest, src)| + 1)
  {
    hide StrLen, Text, Write, Concat;
    var r, s, t := Concat(m, dest, src), Text(m, dest), Fitting(m, dest, src);
    ConcatAt(m, dest, src);
    TextIs(r, dest, s + t);
  }

  lemma LeftIsPrefix(m: Bytes, a: nat, n: nat)
    requires a < |m| && Terminated(m, a)
    ensures var r := Left(m, a, n);
            && Terminated(r, a) && Text(r, a) == Text(m, a)[..Min(n, StrLen(m, a))]
            && Frame(m, r, a + n, a + n + 1)
  {
    hide StrLen, Text, Write;
    var r, u := Left(m, a, n), Text(m, a)[..Min(n, StrLen(m, a))];
    assert forall i :: 0 <= i < |u| ==> r[a + i] == (u)[i];
    TextIs(r, a, u);
  }

  /** The move inside `op_mid` is never clipped. */
  lemma MidMoves(m: Bytes, a: nat, start: nat)
    requires a < |m| && Terminated(m, a)
    ensures var n := StrLen(m, a);
            if start >= n then Mid(m, a, start) == SetNull(m, a)
            else Mid(m, a, start) == SetNull(Move(m, a, a + start, n - start), a + n - start)
  {
    hide StrLen, Move, SetNull;
  }

  lemma MovedDown(m: Bytes, a: nat, start: nat)
    requires a < |m| && Terminated(m, a) && start < StrLen(m, a)
    ensures var r, u := Move(m, a, a + start, StrLen(m, a) - start), Text(m, a)[start..];
            (forall i :: 0 <= i < |u| ==> r[a + i] == u[i]) && Frame(m, r, a, a + |u|)
  {
    hide StrLen, Text, Write;
    var r, s, n := Move(m, a, a + start, StrLen(m, a) - start), Text(m, a), StrLen(m, a);
    forall i | 0 <= i < n - start
      ensures r[a + i] == s[start..][i]
    {
      assert r[a + i] == m[a + start + i] == s[start + i];
    }
  }

  lemma MidAt(m: Bytes, a: nat, start: nat)
    requires a < |m| && Terminated(m, a)
    ensures var r, u := Mid(m, a, start), Text(m, a)[Min(start, StrLen(m, a))..];
            r[a + |u|] == 0 && (forall i :: 0 <= i < |u| ==> r[a + i] == u[i]) && Frame(m, r, a, a + |u| + 1)
  {
    hide StrLen, Text, Mid, Move;
    MidMoves(m, a, start);
    if start < StrLen(m, a) {
      MovedDown(m, a, start);
    }
  }

  lemma MidIsDrop(m: Bytes, a: nat, start: nat)
    requires a < |m| && Terminated(m, a)
    ensures var r, s := Mid(m, a, start), Text(m, a);
            && Terminated(r, a) && Text(r, a) == s[Min(start, |s|)..]
            && Frame(m, r, a, a + |s| - Min(start, |s|) + 1)
  {
    hide StrLen, Text, Write, Mid, Frame;
    MidAt(m, a, start);
    TextIs(Mid(m, a, start), a, Text(m, a)[Min(start, StrLen(m, a))..]);
  }

  /** RIGHT of fewer characters than there are is MID from where they start. */
  lemma RightIsMid(m: Bytes, a: nat, n: nat)
    requires a < |m| && n < StrLen(m, a)
    ensures Right(m, a, n) == Mid(m, a, StrLen(m, a) - n)
  {
    hide StrLen, Move, SetNull;
  }

  lemma RightIsSuffix(m: Bytes, a: nat, n: nat)
    requires a < |m| && Terminated(m, a)
    ensures var r, s := Right(m, a, n), Text(m, a);
            && Terminated(r, a) && Text(r, a) == s[|s| - Min(n, |s|)..]
            && Frame(m, r, a, a + Min(n, |s|) + 1)
  {
    hide StrLen, Text, Right, Mid, Frame, Write;
    if n < StrLen(m, a) {
      RightIsMid(m, a, n);
      MidIsDrop(m, a, StrLen(m, a) - n);
    } else {
      RightAll(m, a, n);
    }
  }

  lemma RightAll(m: Bytes, a: nat, n: nat)
    requires n >= StrLen(m, a)
    ensures Right(m, a, n) == m && forall hi :: Frame(m, Right(m, a, n), a, hi)
  {
    hide StrLen;
  }

  lemma GapAt(m: Bytes, p: nat, tail: nat, src: nat, k: nat)
    requires p + k + tail <= |m| && src + k <= |m| && (src + k <= p || p + k + tail <= src)
    ensures var r := OpenGap(m, p, tail, src, k);
            && (forall i :: p <= i < p + k ==> r[i] == m[src + i - p])
            && (forall i :: p + k <= i < p + k + tail ==> r[i] == m[i - k])
            && Frame(m, r, p, p + k + tail)
  {
    hide Write;
    var x := Move(m, p + k, p, tail);
    var r := Move(x, p, src, k);
    assert forall i :: 0 <= i < |m| && !(p + k <= i < p + k + tail) ==> x[i] == m[i];
    forall i | p <= i < p + k
      ensures r[i] == m[src + i - p]
    {
      assert x[src + i - p] == m[src + i - p];
    }
    forall i | p + k <= i < p + k + tail
      ensures r[i] == m[i - k]
    {
      assert x[i] == m[i - k];
    }
  }

  lemma NoGap(m: Bytes, p: nat, tail: nat, src: nat)
    requires p + tail <= |m| && src <= |m|
    ensures OpenGap(m, p, tail, src, 0) == m
  {
    hide Write;
  }

  /** `op_insert` opens a gap for what fits. */
  lemma InsertIsGap(m: Bytes, dest: nat, ins: nat, at: nat)
    requires dest < |m| && ins < |m| && Terminated(m, dest)
    ensures var n, k := StrLen(m, dest), |Fitting(m, dest, ins)|;
            var pos := Min(at, n);
            && dest + n + k < |m| && ins + k <= |m|
            && Insert(m, dest, ins, at) == OpenGap(m, dest + pos, n - pos + 1, ins, k)
  {
    hide StrLen, Text, Write, OpenGap;
    var n := StrLen(m, dest);
    var pos := Min(at, n);
    NoGap(m, dest + pos, n - pos + 1, ins);
  }

  lemma FittingBytes(m: Bytes, dest: nat, src: nat)
    requires dest <= |m| && src <= |m|
    ensures var t := Fitting(m, dest, src); src + |t| <= |m| && |t| <= StrLen(m, src) && forall i :: 0 <= i < |t| ==> t[i] == m[src + i]
  {
    hide StrLen;
  }

  /** `op_insert`, byte by byte. */
  lemma InsertAt(m: Bytes, dest: nat, ins: nat, at: nat)
    requires dest < |m| && ins < |m| && Terminated(m, dest)
    requires var n, k := StrLen(m, dest), |Fitting(m, dest, ins)|; Apart(ins, k, dest + Min(at, n), dest + n + k + 1)
    ensures var r, n, t := Insert(m, dest, ins, at), StrLen(m, dest), Fitting(m, dest, ins);
            var p, end := dest + Min(at, n), dest + n + |t|;
            && end < |m|
            && (forall i :: p <= i < p + |t| ==> r[i] == t[i - p])
            && (forall i :: p + |t| <= i <= end ==> r[i] == m[i - |t|])
            && Frame(m, r, p, end + 1)
  {
    hide StrLen, Write, Insert, OpenGap, Fitting, Frame;
    var n, k := StrLen(m, dest), |Fitting(m, dest, ins)|;
    var p := dest + Min(at, n);
    InsertIsGap(m, dest, ins, at);
    FittingBytes(m, dest, ins);
    GapAt(m, p, n - Min(at, n) + 1, ins, k);
  }

  lemma Spliced(m: Bytes, r: Bytes, dest: nat, pos: nat, s: Bytes, t: Bytes)
    requires |r| == |m| && pos <= |s| && dest + |s| + |t| < |m|
    requires forall i :: 0 <= i < |s| ==> m[dest + i] == s[i]
    requires forall i :: dest <= i < dest + pos ==> r[i] == m[i]
    requires forall i :: dest + pos <= i < dest + pos + |t| ==> r[i] == t[i - (dest + pos)]
    requires forall i :: dest + pos + |t| <= i < dest + |s| + |t| ==> r[i] == m[i - |t|]
    ensures var u := s[..pos] + t + s[pos..]; forall i :: 0 <= i < |u| ==> r[dest + i] == u[i]
  {
    var u := s[..pos] + t + s[pos..];
    forall i | 0 <= i < |u|
      ensures r[dest + i] == u[i]
    {
      if i < pos {
        assert u[i] == s[i] && m[dest + i] == s[i];
      } else if i < pos + |t| {
        assert u[i] == t[i - pos] && r[dest + i] == t[dest + i - (dest + pos)];
      } else {
        var j := i - |t|;
        assert u[i] == s[j] && m[dest + j] == s[j] && r[dest + i] == m[dest + i - |t|];
      }
    }
  }

  lemma NoNul(s: Bytes, t: Bytes, pos: nat)
    requires 0 !in s && 0 !in t && pos <= |s|
    ensures 0 !in s[..pos] + t + s[pos..] && |s[..pos] + t + s[pos..]| == |s| + |t|
  {
  }

  lemma InsertedAt(m: Bytes, dest: nat, ins: nat, at: nat)
    requires dest < |m| && ins < |m| && Terminated(m, dest)
    requires var n, k := StrLen(m, dest), |Fitting(m, dest, ins)|; Apart(ins, k, dest + Min(at, n), dest + n + k + 1)
    ensures var r, s, t := Insert(m, dest, ins, at), Text(m, dest), Fitting(m, dest, ins);
            var u := s[..Min(at, |s|)] + t + s[Min(at, |s|)..];
            && dest + |s| + |t| < |m| && r[dest + |s| + |t|] == 0 && forall i :: 0 <= i < |u| ==> r[dest + i] == u[i]
  {
    hide StrLen, Text, Write, Insert, OpenGap, Fitting, Apart;
    var r, s, t := Insert(m, dest, ins, at), Text(m, dest), Fitting(m, dest, ins);
    InsertAt(m, dest, ins, at);
    Spliced(m, r, dest, Min(at, |s|), s, t);
    assert r[dest + |s| + |t|] == m[dest + |s|];
  }

  /** `op_insert` puts as much of the source as memory holds in front of position `at`. */
  lemma InsertSplices(m: Bytes, dest: nat, ins: nat, at: nat)
    requires dest < |m| && ins < |m| && Terminated(m, dest)
    requires var n, k := StrLen(m, dest), |Fitting(m, dest, ins)|; Apart(ins, k, dest + Min(at, n), dest + n + k + 1)
    ensures var r, s, t := Insert(m, dest, ins, at), Text(m, dest), Fitting(m, dest, ins);
            var pos := Min(at, |s|);
            && Terminated(r, dest) && Text(r, dest) == s[..pos] + t + s[pos..]
            && Frame(m, r, dest + pos, dest + |s| + |t| + 1)
  {
    hide StrLen, Text, Write, Insert, OpenGap, Fitting, Apart, Frame;
    var r, s, t := Insert(m, dest, ins, at), Text(m, dest), Fitting(m, dest, ins);
    var pos := Min(at, |s|);
    InsertAt(m, dest, ins, at);
    InsertedAt(m, dest, ins, at);
    NoNul(s, t, pos);
    TextIs(r, dest, s[..pos] + t + s[pos..]);
  }

  /** The move inside `op_delete` is never clipped. */
  lemma DeleteMoves(m: Bytes, a: nat, pos: nat, count: nat)
    requires a < |m| && Terminated(m, a)
    ensures var n := StrLen(m, a);
            if pos >= n then Delete(m, a, pos, count) == m
            else var c := Min(count, n - pos); Delete(m, a, pos, count) == Move(m, a + pos, a + pos + c, n - pos - c + 1)
  {
    hide StrLen, Move;
  }

  lemma DeletedText(m: Bytes, a: nat, pos: nat, c: nat)
    requires a < |m| && Terminated(m, a) && pos + c <= StrLen(m, a)
    ensures var r, s := Move(m, a + pos, a + pos + c, StrLen(m, a) - pos - c + 1), Text(m, a);
            var u := s[..pos] + s[pos + c..];
            (forall i :: 0 <= i < |u| ==> r[a + i] == u[i]) && r[a + |u|] == m[a + |s|]
            && Frame(m, r, a + pos, a + |s| + 1)
  {
    hide StrLen, Text, Write;
    var r, s := Move(m, a + pos, a + pos + c, StrLen(m, a) - pos - c + 1), Text(m, a);
    var u := s[..pos] + s[pos + c..];
    forall i | 0 <= i < |u|
      ensures r[a + i] == u[i]
    {
      if i < pos {
        assert r[a + i] == m[a + i] == s[i];
      } else {
        assert r[a + i] == m[a + i + c] == s[i + c];
      }
    }
  }

  lemma Unchanged(m: Bytes, a: nat, n: nat)
    ensures Frame(m, m, a + n, a + n + 1)
  {
  }

  lemma DeletedAt(m: Bytes, a: nat, pos: nat, count: nat)
    requires a < |m| && Terminated(m, a)
    ensures var r, s := Delete(m, a, pos, count), Text(m, a);
            var p := Min(pos, |s|);
            var u := s[..p] + s[p + Min(count, |s| - p)..];
            && r[a + |u|] == 0 && (forall i :: 0 <= i < |u| ==> r[a + i] == u[i])
            && Frame(m, r, a + p, a + |s| + 1)
  {
    hide StrLen, Text, Delete, Move, Frame;
    DeleteMoves(m, a, pos, count);
    var n := StrLen(m, a);
    if pos < n {
      DeletedText(m, a, pos, Min(count, n - pos));
    } else {
      Unchanged(m, a, n);
    }
  }

  /** `op_delete` takes `count` bytes out at `pos`, or as many as there are. */
  lemma DeleteCuts(m: Bytes, a: nat, pos: nat, count: nat)
    requires a < |m| && Terminated(m, a)
    ensures var r, s := Delete(m, a, pos, count), Text(m, a);
            var p := Min(pos, |s|);
            && Terminated(r, a) && Text(r, a) == s[..p] + s[p + Min(count, |s| - p)..]
            && Frame(m, r, a + p, a + |s| + 1)
  {
    hide StrLen, Text, Write, Delete, Frame;
    var s := Text(m, a);
    var p := Min(pos, |s|);
    DeletedAt(m, a, pos, count);
    TextIs(Delete(m, a, pos, count), a, s[..p] + s[p + Min(count, |s| - p)..]);
  }

  lemma SpliceCut(s: Bytes, t: Bytes, pos: nat)
    requires pos <= |s|
    ensures var u := s[..pos] + t + s[pos..];
            u[..pos] + u[pos + Min(|t|, |u| - pos)..] == s
  {
  }

  /** Deleting what was just inserted restores the string. */
  lemma DeleteUndoesInsert(m: Bytes, dest: nat, ins: nat, at: nat)
    requires dest < |m| && ins < |m| && Terminated(m, dest) && at <= StrLen(m, dest)
    requires var n, k := StrLen(m, dest), |Fitting(m, dest, ins)|; Apart(ins, k, dest + Min(at, n), dest + n + k + 1)
    ensures var r := Delete(Insert(m, dest, ins, at), dest, at, |Fitting(m, dest, ins)|);
            Terminated(r, dest) && Text(r, dest) == Text(m, dest)
  {
    hide StrLen, Text, Write, Insert, Delete, Frame, Apart, Fitting;
    var r, s, t := Insert(m, dest, ins, at), Text(m, dest), Fitting(m, dest, ins);
    InsertSplices(m, dest, ins, at);
    DeleteCuts(r, dest, at, |t|);
    SpliceCut(s, t, at);
  }

  /** The deletion inside `op_replace`, byte by byte. */
  lemma CutAt(m: Bytes, p: nat, k: nat, n: nat)
    requires p + k + n <= |m| && n > 0
    ensures var cut := SafeMove(m, p, p + k, n);
            && (forall i :: p <= i < p + n ==> cut[i] == m[i + k])
            && Frame(m, cut, p, p + n)
  {
    hide Write;
  }

  lemma ReplaceCuts(m: Bytes, a: nat, pos: nat, k: nat)
    requires a < |m| && Terminated(m, a) && pos + k <= StrLen(m, a)
    ensures var cut, n := SafeMove(m, a + pos, a + pos + k, StrLen(m, a) - pos - k + 1), StrLen(m, a);
            && StrLen(cut, a) == n - k && Terminated(cut, a)
            && (forall i :: a + pos <= i < a + n - k + 1 ==> cut[i] == m[i + k])
            && Frame(m, cut, a + pos, a + n - k + 1)
  {
    hide StrLen, Text, Write, SafeMove;
    var n, s := StrLen(m, a), Text(m, a);
    var cut := SafeMove(m, a + pos, a + pos + k, n - pos - k + 1);
    CutAt(m, a + pos, k, n - pos - k + 1);
    CutText(cut, a, s, pos, k);
    TextIs(cut, a, s[..pos] + s[pos + k..]);
  }

  /** The text without `k` characters at `pos`, byte by byte. */
  lemma CutText(cut: Bytes, a: nat, s: Bytes, pos: nat, k: nat)
    requires pos + k <= |s| && a + |s| <= |cut| && 0 !in s
    requires forall i :: a <= i < a + pos ==> cut[i] == s[i - a]
    requires forall i :: a + pos <= i < a + |s| - k ==> cut[i] == s[i - a + k]
    ensures var v := s[..pos] + s[pos + k..];
            0 !in v && forall i :: 0 <= i < |v| ==> cut[a + i] == v[i]
  {
  }

  /** The cut leaves room for just as many bytes. */
  lemma ReplaceRoom(m: Bytes, a: nat, pos: nat, k: nat)
    requires a < |m| && Terminated(m, a) && pos + k <= StrLen(m, a)
    ensures var cut, n := SafeMove(m, a + pos, a + pos + k, StrLen(m, a) - pos - k + 1), StrLen(m, a);
            StrLen(cut, a) == n - k && Room(cut, a) >= k && a + n < |m|
  {
    hide StrLen, Text, Write, SafeMove;
    ReplaceCuts(m, a, pos, k);
  }

  /** `op_replace` opens a gap where it has just cut the same number of bytes. */
  lemma ReplaceIsGap(m: Bytes, a: nat, rep: nat, pos: nat)
    requires a < |m| && rep < |m| && Terminated(m, a) && pos <= StrLen(m, a)
    ensures var n := StrLen(m, a);
            var k := Min(StrLen(m, rep), n - pos);
            var cut := SafeMove(m, a + pos, a + pos + k, n - pos - k + 1);
            && a + n < |m| && rep + k <= |m|
            && Replace(m, a, rep, pos) == OpenGap(cut, a + pos, n - k - pos + 1, rep, k)
  {
    hide StrLen, Text, Write, SafeMove, OpenGap, Room, Terminated;
    var n := StrLen(m, a);
    var k := Min(StrLen(m, rep), n - pos);
    ReplaceRoom(m, a, pos, k);
    NoGap(SafeMove(m, a + pos, a + pos + k, n - pos - k + 1), a + pos, n - k - pos + 1, rep);
  }

  /** `op_replace`, byte by byte. */
  lemma ReplaceAt(m: Bytes, a: nat, rep: nat, pos: nat)
    requires a < |m| && rep < |m| && Terminated(m, a) && pos <= StrLen(m, a)
    requires var n := StrLen(m, a); Apart(rep, Min(StrLen(m, rep), n - pos), a + pos, a + n + 1)
    ensures var r, p, k := Replace(m, a, rep, pos), a + pos, Min(StrLen(m, rep), StrLen(m, a) - pos);
            && (forall i :: p <= i < p + k ==> r[i] == m[rep + (i - p)])
            && Frame(m, r, p, p + k)
  {
    hide StrLen, Text, Write, Replace, SafeMove, OpenGap, Frame;
    var n := StrLen(m, a);
    var p, k := a + pos, Min(StrLen(m, rep), n - pos);
    var cut := SafeMove(m, p, p + k, n - pos - k + 1);
    var r := OpenGap(cut, p, n - k - pos + 1, rep, k);
    ReplaceIsGap(m, a, rep, pos);
    assert Replace(m, a, rep, pos) == r;
    ReplaceCuts(m, a, pos, k);
    GapAt(cut, p, n - k - pos + 1, rep, k);
    ReplaceCore(m, cut, r, rep, p, a + n + 1, k);
  }

  /** `op_replace`, a deletion followed by an insertion, overwrites in place and keeps the length. */
  lemma ReplaceOverwrites(m: Bytes, a: nat, rep: nat, pos: nat)
    requires a < |m| && rep < |m| && Terminated(m, a) && pos <= StrLen(m, a)
    requires var n := StrLen(m, a); Apart(rep, Min(StrLen(m, rep), n - pos), a + pos, a + n + 1)
    ensures var r, s, t := Replace(m, a, rep, pos), Text(m, a), Text(m, rep);
            var k := Min(|t|, |s| - pos);
            && Terminated(r, a) && Text(r, a) == s[..pos] + t[..k] + s[pos + k..]
            && |Text(r, a)| == |s|
            && Frame(m, r, a + pos, a + pos + k)
  {
    hide StrLen, Text, Write, Replace, Apart, Room;
    var r, s, t := Replace(m, a, rep, pos), Text(m, a), Text(m, rep);
    var k := Min(|t|, |s| - pos);
    ReplaceAt(m, a, rep, pos);
    var u := s[..pos] + t[..k] + s[pos + k..];
    forall i | 0 <= i < |u|
      ensures r[a + i] == u[i]
    {
      if pos <= i < pos + k {
        assert u[i] == t[i - pos];
      }
    }
    TextIs(r, a, u);
  }

  /** What the cut moved down the gap moves up again, and the gap holds the bytes of the source. */
  lemma ReplaceCore(m: Bytes, cut: Bytes, r: Bytes, rep: nat, p: nat, end: nat, k: nat)
    requires p + k < end <= |m| && |cut| == |r| == |m| && rep + k <= |m|
    requires rep + k <= p || end <= rep
    requires forall i :: p <= i < end - k ==> cut[i] == m[i + k]
    requires Frame(m, cut, p, end - k)
    requires forall i :: p <= i < p + k ==> r[i] == cut[rep + i - p]
    requires forall i :: p + k <= i < end ==> r[i] == cut[i - k]
    requires Frame(cut, r, p, end)
    ensures forall i :: p <= i < p + k ==> r[i] == m[rep + (i - p)]
    ensures Frame(m, r, p, p + k)
  {
    forall i | p + k <= i < end
      ensures r[i] == m[i]
    {
      assert cut[i - k] == m[i - k + k];
    }
  }
}
