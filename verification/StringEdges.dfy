/** String edits at the edges: arguments outside memory, and a destination that no NUL ends. */
module StringEdges {
  import opened VmStrings

  lemma FullTextIs(m: Bytes, a: nat, u: Bytes)
    requires a + |u| == |m| && 0 !in u
    requires forall i :: 0 <= i < |u| ==> m[a + i] == u[i]
    ensures Text(m, a) == u && !Terminated(m, a)
  {
    forall i | a <= i < a + |u|
      ensures m[i] != 0
    {
      assert m[a + (i - a)] == u[i - a] && u[i - a] in u;
    }
    StrLenAtLeast(m, a, |u|);
  }

  /** No edit does anything to a string outside memory, or with an argument string outside memory; DELETE
      and REPLACE do nothing past the end of the text either. */
  lemma OutsideMemory(m: Bytes, a: nat, b: nat, n: nat, count: nat)
    ensures a >= |m| ==> Left(m, a, n) == m && Right(m, a, n) == m && Mid(m, a, n) == m && Delete(m, a, n, count) == m
    ensures a >= |m| || b >= |m| ==> Concat(m, a, b) == m && Insert(m, a, b, n) == m && Replace(m, a, b, n) == m
    ensures n > StrLen(m, a) ==> Delete(m, a, n, count) == m && Replace(m, a, b, n) == m
  {
    hide StrLen;
  }

  /** Where no NUL ends the destination nothing fits behind it: CONCAT and INSERT do nothing. */
  lemma NothingFits(m: Bytes, a: nat, b: nat, at: nat)
    requires a < |m| && b < |m| && !Terminated(m, a)
    ensures Concat(m, a, b) == m && Insert(m, a, b, at) == m
  {
    hide StrLen;
  }

  /** LEFT, RIGHT and MID of a part end the text. */
  lemma PartsEnd(m: Bytes, a: nat, n: nat)
    requires a < |m| && !Terminated(m, a)
    ensures var s, l := Text(m, a), Left(m, a, n);
            if n < |s| then Terminated(l, a) && Text(l, a) == s[..n] && Frame(m, l, a + n, a + n + 1) else l == m
    ensures var s, r := Text(m, a), Right(m, a, n);
            if n < |s| then Terminated(r, a) && Text(r, a) == s[|s| - n..] && Frame(m, r, a, a + n + 1) else r == m
    ensures var s, d := Text(m, a), Mid(m, a, n);
            if n == 0 then d == m
            else Terminated(d, a) && Text(d, a) == s[Min(n, |s|)..] && Frame(m, d, a, a + |s| - Min(n, |s|) + 1)
  {
    hide StrLen, Text, Left, Right, Mid;
    LeftEnds(m, a, n);
    MidEnds(m, a, n);
    RightEnds(m, a, n);
  }

  lemma LeftEnds(m: Bytes, a: nat, n: nat)
    requires a < |m| && !Terminated(m, a)
    ensures var s, l := Text(m, a), Left(m, a, n);
            if n < |s| then Terminated(l, a) && Text(l, a) == s[..n] && Frame(m, l, a + n, a + n + 1) else l == m
  {
    hide StrLen, Text;
    if n < StrLen(m, a) {
      assert forall i :: 0 <= i < n ==> Left(m, a, n)[a + i] == Text(m, a)[..n][i];
      TextIs(Left(m, a, n), a, Text(m, a)[..n]);
    }
  }

  lemma MidBytes(m: Bytes, a: nat, n: nat)
    requires a < |m| && !Terminated(m, a) && 0 < n
    ensures var s, d := Text(m, a), Mid(m, a, n);
            var u := s[Min(n, |s|)..];
            d[a + |u|] == 0 && (forall i :: 0 <= i < |u| ==> d[a + i] == u[i]) && Frame(m, d, a, a + |u| + 1)
  {
    hide StrLen, Text, Write;
    var s := Text(m, a);
    if n < |s| {
      forall i | 0 <= i < |s| - n
        ensures Mid(m, a, n)[a + i] == s[n..][i]
      {
        assert Mid(m, a, n)[a + i] == m[a + n + i] == s[n + i];
      }
    }
  }

  lemma MidEnds(m: Bytes, a: nat, n: nat)
    requires a < |m| && !Terminated(m, a)
    ensures var s, d := Text(m, a), Mid(m, a, n);
            if n == 0 then d == m
            else Terminated(d, a) && Text(d, a) == s[Min(n, |s|)..] && Frame(m, d, a, a + |s| - Min(n, |s|) + 1)
  {
    hide StrLen, Text;
    if n > 0 {
      hide Mid;
      MidBytes(m, a, n);
      TextIs(Mid(m, a, n), a, Text(m, a)[Min(n, StrLen(m, a))..]);
    } else {
      assert Mid(m, a, 0) == m;
    }
  }

  lemma RightEnds(m: Bytes, a: nat, n: nat)
    requires a < |m| && !Terminated(m, a)
    ensures var s, r := Text(m, a), Right(m, a, n);
            if n < |s| then Terminated(r, a) && Text(r, a) == s[|s| - n..] && Frame(m, r, a, a + n + 1) else r == m
  {
    hide StrLen, Text, Mid, Right, Frame, Terminated;
    if n < StrLen(m, a) {
      RightIsMid(m, a, n);
      MidEnds(m, a, StrLen(m, a) - n);
    } else {
      RightAll(m, a, n);
    }
  }

  lemma FullLength(m: Bytes, a: nat)
    requires a <= |m| && !Terminated(m, a)
    ensures a + |Text(m, a)| == a + StrLen(m, a) == |m|
  {
  }

  /** DELETE closes the gap but has no NUL to move: the text keeps its length, and its last bytes show
      twice. */
  lemma DeleteRepeats(m: Bytes, a: nat, pos: nat, count: nat)
    requires a < |m| && !Terminated(m, a) && pos <= StrLen(m, a)
    ensures var r, s := Delete(m, a, pos, count), Text(m, a);
            var c := Min(count, |s| - pos);
            !Terminated(r, a) && Text(r, a) == s[..pos] + s[pos + c..] + s[|s| - c..] && Frame(m, r, a + pos, |m| - c)
  {
    hide StrLen, Text, Delete, Terminated;
    FullLength(m, a);
    var r, s := Delete(m, a, pos, count), Text(m, a);
    var c := Min(count, |s| - pos);
    DeleteBytes(m, a, pos, count);
    DeletedBytes(m, r, a, s, pos, c);
    FullTextIs(r, a, s[..pos] + s[pos + c..] + s[|s| - c..]);
  }

  lemma DeletedBytes(m: Bytes, r: Bytes, a: nat, s: Bytes, pos: nat, c: nat)
    requires a + |s| == |m| == |r| && pos + c <= |s|
    requires forall i :: 0 <= i < |s| ==> s[i] == m[a + i]
    requires (forall i :: a + pos <= i < |m| - c ==> r[i] == m[i + c]) && Frame(m, r, a + pos, |m| - c)
    ensures var u := s[..pos] + s[pos + c..] + s[|s| - c..]; forall i :: 0 <= i < |u| ==> r[a + i] == u[i]
  {
    var u := s[..pos] + s[pos + c..] + s[|s| - c..];
    forall i | 0 <= i < |u|
      ensures r[a + i] == u[i]
    {
      if pos <= i < |s| - c {
        assert r[a + i] == m[a + (i + c)] == s[i + c];
      } else {
        assert r[a + i] == m[a + i] == s[i];
      }
    }
  }

  lemma DeleteIsMove(m: Bytes, a: nat, pos: nat, count: nat)
    requires a < |m| && !Terminated(m, a) && pos <= StrLen(m, a)
    ensures var c := Min(count, StrLen(m, a) - pos);
            Delete(m, a, pos, count) == if a + pos + c >= |m| then m else Move(m, a + pos, a + pos + c, |m| - a - pos - c)
  {
    hide StrLen, Move;
  }

  lemma DeleteBytes(m: Bytes, a: nat, pos: nat, count: nat)
    requires a < |m| && !Terminated(m, a) && pos <= StrLen(m, a)
    ensures var r, c := Delete(m, a, pos, count), Min(count, StrLen(m, a) - pos);
            (forall i :: a + pos <= i < |m| - c ==> r[i] == m[i + c]) && Frame(m, r, a + pos, |m| - c)
  {
    hide StrLen, Terminated, Write, Delete, Text;
    FullLength(m, a);
    DeleteIsMove(m, a, pos, count);
  }

  /** REPLACE finds no room after its cut: it deletes and puts nothing in. */
  lemma ReplaceOnlyCuts(m: Bytes, a: nat, rep: nat, pos: nat)
    requires a < |m| && rep < |m| && !Terminated(m, a)
    ensures Replace(m, a, rep, pos) == Delete(m, a, pos, StrLen(m, rep))
  {
    if pos <= StrLen(m, a) {
      DeleteRepeats(m, a, pos, StrLen(m, rep));
      NoRoom(Delete(m, a, pos, StrLen(m, rep)), a);
      hide StrLen, Text, SafeMove, OpenGap, Room;
      CutIsDelete(m, a, pos, Min(StrLen(m, rep), StrLen(m, a) - pos));
    }
  }

  lemma NoRoom(m: Bytes, a: nat)
    requires !Terminated(m, a)
    ensures Room(m, a) == 0
  {
  }

  lemma CutIsDelete(m: Bytes, a: nat, pos: nat, c: nat)
    requires a < |m| && !Terminated(m, a) && pos + c <= StrLen(m, a)
    ensures SafeMove(m, a + pos, a + pos + c, StrLen(m, a) - pos - c + 1) == Delete(m, a, pos, c)
  {
    hide StrLen, Move;
  }
}
