/** The growing buffers of base.c and the string pool on top of them. Beside the contents each buffer
    counts what was pushed into it and what its reallocations had to copy. */
module StringPools {

  /** struct dstring; the capacity is the length of `buf`. */
  class DString {
    var buf: array<char>
    var len: nat
    ghost var pushed: nat
    ghost var copied: nat

    ghost predicate Valid()
      reads this
    {
      && len <= buf.Length && len <= pushed
      && copied <= buf.Length && (copied > 0 ==> buf.Length < 2 * pushed)
    }

    ghost function Contents(): string
      requires Valid()
      reads this, buf
    {
      buf[..len]
    }

    constructor (cap: nat)
      ensures Valid() && fresh(buf) && Contents() == "" && pushed == copied == 0 && buf.Length == cap
    {
      buf := new char[cap];
      len, pushed, copied := 0, 0, 0;
    }

    method Push(s: string)
      requires Valid()
      modifies this, buf
      ensures Valid() && (buf == old(buf) || fresh(buf))
      ensures Contents() == old(Contents()) + s
      ensures pushed == old(pushed) + |s|
      ensures copied == old(copied) + if buf == old(buf) then 0 else old(len)
    {
      Reserve(|s|);
      forall i | 0 <= i < |s| {
        buf[len + i] := s[i];
      }
      len := len + |s|;
      assert buf[..len] == old(buf[..len]) + s;
    }

    /** The part of dstring_push that makes room. */
    method Reserve(n: nat)
      requires Valid()
      modifies this
      ensures Valid() && (buf == old(buf) || fresh(buf)) && len + n <= buf.Length
      ensures len == old(len) && Contents() == old(Contents())
      ensures pushed == old(pushed) + n
      ensures copied == old(copied) + if buf == old(buf) then 0 else old(len)
    {
      var newCap := if buf.Length <= 0 then 1 else buf.Length;
      ghost var start := newCap;
      while newCap < len + n
        invariant newCap == start || (2 * start <= newCap < 2 * (len + n))
        invariant newCap >= 1
        decreases len + n - newCap
      {
        newCap := newCap * 2;
      }
      if newCap > buf.Length {
        var grown := new char[newCap];
        forall i | 0 <= i < len {
          grown[i] := buf[i];
        }
        buf, copied := grown, copied + len;
      }
      pushed := pushed + n;
    }

    /** dstring_pop; popping more than there is panics. */
    method Pop(n: nat)
      requires Valid() && n <= len
      modifies this`len
      ensures Valid() && Contents() == old(Contents())[..old(len) - n]
    {
      len := len - n;
    }
  }

  /** IMPLEMENT_VEC; a zeroed vector, with no buffer yet, sets itself up at the first push. */
  class Vec<T(0)> {
    var buf: array?<T>
    var len: nat
    var cap: nat
    ghost var pushed: nat
    ghost var copied: nat

    ghost predicate Valid()
      reads this
    {
      && len <= cap && len <= pushed
      && (if buf == null then len == 0 else buf.Length == cap)
      && copied <= cap && (copied > 0 ==> cap < 2 * pushed)
    }

    ghost function Contents(): seq<T>
      requires Valid()
      reads this, buf
    {
      if buf == null then [] else buf[..len]
    }

    constructor (cap: nat)
      ensures Valid() && fresh(buf) && Contents() == [] && pushed == copied == 0
    {
      buf := new T[cap];
      this.cap := cap;
      len, pushed, copied := 0, 0, 0;
    }

    constructor Zeroed(cap: nat)
      ensures Valid() && buf == null && Contents() == [] && pushed == copied == 0
    {
      buf := null;
      this.cap := cap;
      len, pushed, copied := 0, 0, 0;
    }

    method Push(x: T)
      requires Valid()
      modifies this, buf
      ensures Valid() && buf != null && (buf == old(buf) || fresh(buf))
      ensures Contents() == old(Contents()) + [x]
      ensures pushed == old(pushed) + 1
      ensures copied == old(copied) + if buf == old(buf) then 0 else old(len)
    {
      if buf == null || cap == 0 {
        if cap == 0 {
          cap := 4;
        }
        buf := new T[cap];
      } else if len + 1 > cap {
        var grown := new T[2 * cap];
        forall i | 0 <= i < len {
          grown[i] := buf[i];
        }
        buf, copied := grown, copied + len;
        cap := cap * 2;
      }
      buf[len] := x;
      len, pushed := len + 1, pushed + 1;
    }
  }

  // ---------------------------------------------------------------- the pool

  function Joined(strings: seq<string>): string {
    if strings == [] then "" else Joined(strings[..|strings| - 1]) + strings[|strings| - 1]
  }

  /** Where the strings begin and the last one ends. */
  function Bounds(strings: seq<string>): (bounds: seq<nat>)
    ensures |bounds| == |strings| + 1
  {
    if strings == [] then [0] else Bounds(strings[..|strings| - 1]) + [|Joined(strings)|]
  }

  lemma {:induction false} JoinedPrefix(strings: seq<string>, i: nat)
    requires i <= |strings|
    ensures Joined(strings[..i]) <= Joined(strings)
    ensures Bounds(strings)[i] == |Joined(strings[..i])|
  {
    if i < |strings| {
      var before := strings[..|strings| - 1];
      assert before[..i] == strings[..i];
      JoinedPrefix(before, i);
    } else {
      assert strings[..i] == strings;
    }
  }

  /** The bounds rise from 0 to the length of the text ... */
  lemma {:induction false} BoundsRise(strings: seq<string>, i: nat, j: nat)
    requires i <= j <= |strings|
    ensures Bounds(strings)[0] == 0 && Bounds(strings)[|strings|] == |Joined(strings)|
    ensures Bounds(strings)[i] <= Bounds(strings)[j] <= |Joined(strings)|
  {
    JoinedPrefix(strings, 0);
    JoinedPrefix(strings, |strings|);
    assert strings[..|strings|] == strings;
    JoinedPrefix(strings, i);
    JoinedPrefix(strings, j);
    assert strings[..j][..i] == strings[..i];
    JoinedPrefix(strings[..j], i);
  }

  /** ... and cut each string out of it. */
  lemma {:induction false} BoundsCut(strings: seq<string>, i: nat)
    requires i < |strings|
    ensures Bounds(strings)[i] <= Bounds(strings)[i + 1] <= |Joined(strings)|
    ensures Joined(strings)[Bounds(strings)[i]..Bounds(strings)[i + 1]] == strings[i]
  {
    BoundsRise(strings, i, i + 1);
    JoinedPrefix(strings, i);
    JoinedPrefix(strings, i + 1);
    var all, upTo := Joined(strings), Joined(strings[..i + 1]);
    assert strings[..i + 1][..i] == strings[..i];
    assert upTo == all[..|upTo|] == Joined(strings[..i]) + strings[i];
    assert all[Bounds(strings)[i]..Bounds(strings)[i + 1]] == upTo[Bounds(strings)[i]..];
  }

  lemma {:induction false} OneMore(strings: seq<string>, s: string)
    ensures Joined(strings + [s]) == Joined(strings) + s
    ensures Bounds(strings + [s]) == Bounds(strings) + [|Joined(strings)| + |s|]
    ensures Bounds(strings)[|strings|] == |Joined(strings)|
  {
    assert (strings + [s])[..|strings|] == strings;
    BoundsRise(strings, 0, 0);
  }

  class StringPool {
    const dstr: DString
    const bounds: Vec<nat>
    ghost var strings: seq<string>

    ghost predicate Valid()
      reads this, dstr, dstr.buf, bounds, bounds.buf
    {
      && dstr.Valid() && bounds.Valid()
      && dstr.Contents() == Joined(strings) && bounds.Contents() == Bounds(strings)
      && dstr.pushed == |Joined(strings)| && bounds.pushed == |strings| + 1
    }

    constructor (cap: nat)
      ensures Valid() && strings == []
      ensures fresh(dstr) && fresh(bounds) && fresh(dstr.buf) && fresh(bounds.buf)
    {
      dstr := new DString(cap);
      bounds := new Vec<nat>(32);
      strings := [];
      new;
      bounds.Push(0);
    }

    /** Whatever the growing has copied so far is less than twice what has been pushed. */
    method Push(s: string) returns (idx: nat)
      requires Valid()
      modifies this, dstr, dstr.buf, bounds, bounds.buf
      ensures Valid() && strings == old(strings) + [s] && idx == |old(strings)|
      ensures dstr.copied == 0 || dstr.copied < 2 * |Joined(strings)|
      ensures bounds.copied == 0 || bounds.copied < 2 * (|strings| + 1)
      ensures fresh(dstr.buf) || dstr.buf == old(dstr.buf)
      ensures fresh(bounds.buf) || bounds.buf == old(bounds.buf)
    {
      hide Joined, Bounds;
      OneMore(strings, s);
      dstr.Push(s);
      assert bounds.Contents() == Bounds(strings);
      var bound := bounds.buf[bounds.len - 1] + |s|;
      bounds.Push(bound);
      strings := strings + [s];
      idx := bounds.len - 2;
    }

    /** The i-th string pushed, whatever was pushed after it. */
    method Get(idx: nat) returns (s: string)
      requires Valid() && idx < |strings|
      ensures s == strings[idx]
    {
      hide Joined, Bounds;
      BoundsCut(strings, idx);
      assert bounds.buf[idx] == Bounds(strings)[idx] && bounds.buf[idx + 1] == Bounds(strings)[idx + 1];
      s := dstr.buf[bounds.buf[idx]..bounds.buf[idx + 1]];
    }
  }
}
