/** lib/util/buffer.cc: a fixed block of bytes with one offset that every get and put advances. */
module Buffer {
  import opened Bytes

  /** Writing `s` moves the boundary between the written bytes and the room left. */
  ghost predicate Wrote(before: seq<byte>, room: seq<byte>, before': seq<byte>, room': seq<byte>, s: seq<byte>) {
    |s| <= |room| && before' == before + s && room' == room[|s|..]
  }

  lemma WroteBoth(b: seq<byte>, r: seq<byte>, b1: seq<byte>, r1: seq<byte>, b2: seq<byte>, r2: seq<byte>,
                  s: seq<byte>, t: seq<byte>)
    requires Wrote(b, r, b1, r1, s) && Wrote(b1, r1, b2, r2, t)
    ensures Wrote(b, r, b2, r2, s + t)
  {
    assert r[|s|..][|t|..] == r[|s + t|..];
    assert b + s + t == b + (s + t);
  }

  /** A loop that writes `all` piece by piece has written `done`, and `rest` is to come. */
  ghost predicate Writing(before: seq<byte>, room: seq<byte>, before': seq<byte>, room': seq<byte>,
                          done: seq<byte>, rest: seq<byte>, all: seq<byte>) {
    Wrote(before, room, before', room', done) && done + rest == all
  }

  lemma WritingBegins(before: seq<byte>, room: seq<byte>, all: seq<byte>)
    ensures Writing(before, room, before, room, [], all, all)
  {
  }

  /** The next piece is put, or does not fit, and then all does not. */
  lemma WritingStep(before: seq<byte>, room: seq<byte>, b: seq<byte>, a: seq<byte>, b': seq<byte>, a': seq<byte>,
                    done: seq<byte>, x: seq<byte>, rest: seq<byte>, all: seq<byte>)
    requires Writing(before, room, b, a, done, x + rest, all)
    ensures |x| > |a| ==> |all| > |room|
    ensures Wrote(b, a, b', a', x) ==> Writing(before, room, b', a', done + x, rest, all)
  {
    assert done + (x + rest) == (done + x) + rest;
    if Wrote(b, a, b', a', x) { WroteBoth(before, room, b, a, b', a', done, x); }
  }

  lemma WritingEnds(before: seq<byte>, room: seq<byte>, b: seq<byte>, a: seq<byte>, done: seq<byte>, all: seq<byte>)
    requires Writing(before, room, b, a, done, [], all)
    ensures |all| <= |room| && Wrote(before, room, b, a, all)
  {
    assert done + [] == done;
  }

  /** The conversion of a size to int: its low 32 bits in two's complement. */
  function IntOf(n: nat): (i: int)
    ensures n < INT_LIMIT ==> i == n
    ensures i <= n
    ensures -0x8000_0000 <= i < 0x8000_0000 && (n - i) % 0x1_0000_0000 == 0
  {
    var low := n % 0x1_0000_0000;
    if low < INT_LIMIT then low else low - 0x1_0000_0000
  }

  /** What bytes() makes of a buffer: its first (int)size bytes, and zeros where that falls short. */
  function Copied(s: seq<byte>): (r: seq<byte>)
    ensures |r| == |s|
  {
    var k := IntOf(|s|);
    if k <= 0 then Zeros(|s|) else s[..k] + Zeros(|s| - k)
  }

  lemma CopiedWhole(s: seq<byte>)
    requires |s| < INT_LIMIT
    ensures Copied(s) == s
  {
  }

  /** bytes() returns every buffer of a size unchanged exactly when the size is below 2^31. */
  lemma CopiedIff(n: nat)
    ensures (forall s: seq<byte> | |s| == n :: Copied(s) == s) <==> n < INT_LIMIT
  {
    if n >= INT_LIMIT {
      var s: seq<byte> := seq(n, _ => 1);
      assert IntOf(n) < n;
      assert Copied(s)[n - 1] == 0 && s[n - 1] == 1;
    }
  }

  class MemoryBuffer {
    const data: array<byte>
    var offset: nat

    predicate Valid()
      reads this
    {
      offset <= data.Length
    }

    /** The bytes before and after the offset: what was put or taken, and what is left. */
    ghost function Before(): (s: seq<byte>)
      requires Valid()
      reads this, data
    {
      data[..offset]
    }

    ghost function After(): (s: seq<byte>)
      requires Valid()
      reads this, data
    {
      data[offset..]
    }

    /** Putting `s` succeeds exactly when it fits, and then replaces the next |s| bytes. */
    twostate predicate Put(s: seq<byte>, ok: bool)
      requires old(Valid())
      reads this, data
    {
      && Valid()
      && ok == (|s| <= |old(After())|)
      && (ok ==> Wrote(old(Before()), old(After()), Before(), After(), s))
    }

    /** Reading moves the offset only: afterwards exactly `rest` is unread. */
    twostate predicate Took(rest: seq<byte>)
      requires old(Valid())
      reads this, data
    {
      && Valid()
      && data[..] == old(data[..])
      && After() == rest
    }

    /** A reader returned what the byte-level reader `p` yields, or threw when `p` fails. */
    twostate predicate Got<T>(new p: Parsed<T>, new r: Option<T>)
      requires old(Valid())
      reads this, data
    {
      match p
      case Ok(v, rest) => r == Some(v) && Took(rest)
      case Fail => r == None && Valid() && data[..] == old(data[..])
    }

    constructor (size: nat)
      ensures Valid() && offset == 0 && fresh(data)
      ensures data[..] == Zeros(size)
    {
      data := new byte[size](_ => 0);
      offset := 0;
    }

    constructor Wrap(bytes: seq<byte>)
      ensures Valid() && offset == 0 && fresh(data)
      ensures data[..] == bytes
    {
      data := new byte[|bytes|](i requires 0 <= i < |bytes| => bytes[i]);
      offset := 0;
    }

    method Bytes() returns (buf: array<byte>)
      ensures fresh(buf) && buf[..] == Copied(data[..])
    {
      buf := new byte[data.Length](_ => 0);
      var i: int := 0;
      var size := IntOf(data.Length);
      while i < size
        invariant 0 <= i && (size >= 0 ==> i <= size) && (size < 0 ==> i == 0)
        invariant forall j | 0 <= j < i :: buf[j] == data[j]
        invariant forall j | i <= j < buf.Length :: buf[j] == 0
      {
        buf[i] := data[i];
        i := i + 1;
      }
    }

    method PutBytes(s: seq<byte>) returns (ok: bool)
      requires Valid()
      modifies this, data
      ensures Put(s, ok)
      ensures !ok ==> offset == old(offset) && data[..] == old(data[..])
    {
      if |s| + offset > data.Length {
        return false;
      }
      forall i | 0 <= i < |s| {
        data[offset + i] := s[i];
      }
      offset := offset + |s|;
      assert data[..offset] == old(data[..offset]) + s;
      assert data[offset..] == old(data[offset..])[|s|..];
      return true;
    }

    method PutUint(n: nat, w: nat) returns (ok: bool)
      requires Valid()
      modifies this, data
      ensures Put(LittleEndian(n, w), ok)
    {
      ok := PutBytes(LittleEndian(n, w));
    }

    method GetBytes(n: nat) returns (r: Option<seq<byte>>)
      requires Valid()
      modifies this
      ensures Got(ParseBytes(old(After()), n), r)
    {
      if n + offset > data.Length {
        return None;
      }
      var s := data[offset..offset + n];
      offset := offset + n;
      assert old(After())[..n] == s;
      assert After() == old(After())[n..];
      return Some(s);
    }

    method GetUint(w: nat) returns (r: Option<nat>)
      requires Valid()
      modifies this
      ensures Got(ParseUint(old(After()), w), r)
    {
      var b := GetBytes(w);
      match b
      case None => r := None;
      case Some(s) => r := Some(FromLittleEndian(s));
    }

    method GetInt(w: nat) returns (r: Option<int>)
      requires Valid() && w > 0
      modifies this
      ensures Got(ParseInt(old(After()), w), r)
    {
      var b := GetUint(w);
      match b
      case None => r := None;
      case Some(n) => r := Some(FromTwos(n, w));
    }
  }
}
