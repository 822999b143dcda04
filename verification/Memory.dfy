/** lib/cfa/src/builtin.c: memcpy/memmove, C strings and bounded copies into slices. */
module Memory {
  import opened Bits

  const WSIZE := 8 // sizeof(word)
  const WMASK := WSIZE - 1

  // What a correct memmove leaves behind: n cells from s now also stand at d.
  ghost function Moved(m: seq<char>, d: nat, s: nat, n: nat): (r: seq<char>)
    requires d + n <= |m| && s + n <= |m|
    ensures |r| == |m|
  {
    m[..d] + m[s..s + n] + m[d + n..]
  }

  // Text t written at position d.
  ghost function Put(m: seq<char>, d: nat, t: seq<char>): (r: seq<char>)
    requires d + |t| <= |m|
    ensures |r| == |m|
  {
    m[..d] + t + m[d + |t|..]
  }

  lemma MovedNone(m: seq<char>, d: nat, s: nat)
    requires d <= |m| && s <= |m|
    ensures Moved(m, d, s, 0) == m
  {
  }

  // Copying upwards in two pieces is copying once, also when the ranges overlap.
  lemma MovedUp(m: seq<char>, d: nat, s: nat, a: nat, b: nat)
    requires d < s && s + a + b <= |m|
    ensures Moved(Moved(m, d, s, a), d + a, s + a, b) == Moved(m, d, s, a + b)
  {
    var m1 := Moved(m, d, s, a);
    assert m1[s + a..s + a + b] == m[s + a..s + a + b];
    assert m[s..s + a + b] == m[s..s + a] + m[s + a..s + a + b];
    assert m1[..d + a] == m[..d] + m[s..s + a];
    assert m1[d + a + b..] == m[d + a + b..];
  }

  // Copying downwards in two pieces, the upper piece first.
  lemma MovedDown(m: seq<char>, d: nat, s: nat, a: nat, b: nat)
    requires s < d && d + a + b <= |m|
    ensures Moved(Moved(m, d + b, s + b, a), d, s, b) == Moved(m, d, s, a + b)
  {
    var m1 := Moved(m, d + b, s + b, a);
    assert m1[s..s + b] == m[s..s + b];
    assert m[s..s + a + b] == m[s..s + b] + m[s + b..s + a + b];
    assert m1[..d] == m[..d];
    assert m1[d + b..] == m[s + b..s + b + a] + m[d + a + b..];
  }

  // Bytes, lowest address first (the head and tail loops of the forward path).
  method CopyBytesUp(mem: array<char>, dst: nat, src: nat, t: nat)
    requires dst < src && src + t <= mem.Length
    modifies mem
    ensures mem[..] == Moved(old(mem[..]), dst, src, t)
  {
    ghost var m := mem[..];
    var k := 0;
    while k < t
      invariant k <= t
      invariant forall j :: dst <= j < dst + k ==> mem[j] == m[src + j - dst]
      invariant forall j :: 0 <= j < mem.Length && !(dst <= j < dst + k) ==> mem[j] == m[j]
    {
      mem[dst + k] := mem[src + k];
      k := k + 1;
    }
    MovedPointwise(mem[..], m, dst, src, t);
  }

  // Bytes, highest address first.
  method CopyBytesDown(mem: array<char>, dst: nat, src: nat, t: nat)
    requires src < dst && dst + t <= mem.Length
    modifies mem
    ensures mem[..] == Moved(old(mem[..]), dst, src, t)
  {
    ghost var m := mem[..];
    var k := t;
    while k > 0
      invariant 0 <= k <= t
      invariant forall j :: dst + k <= j < dst + t ==> mem[j] == m[src + j - dst]
      invariant forall j :: 0 <= j < mem.Length && !(dst + k <= j < dst + t) ==> mem[j] == m[j]
    {
      k := k - 1;
      mem[dst + k] := mem[src + k];
    }
    MovedPointwise(mem[..], m, dst, src, t);
  }

  lemma MovedPointwise(r: seq<char>, m: seq<char>, d: nat, s: nat, n: nat)
    requires |r| == |m| && d + n <= |m| && s + n <= |m|
    requires forall j :: d <= j < d + n ==> r[j] == m[s + j - d]
    requires forall j :: 0 <= j < |m| && !(d <= j < d + n) ==> r[j] == m[j]
    ensures r == Moved(m, d, s, n)
  {
  }

  // One load and one store of a whole word. Both addresses must be aligned.
  method CopyWord(mem: array<char>, ghost base: nat, dst: nat, src: nat)
    requires dst + WSIZE <= mem.Length && src + WSIZE <= mem.Length
    requires (base + dst) % WSIZE == 0 && (base + src) % WSIZE == 0
    modifies mem
    ensures mem[..] == Moved(old(mem[..]), dst, src, WSIZE)
  {
    ghost var m := mem[..];
    var word := mem[src..src + WSIZE];
    forall j | 0 <= j < WSIZE {
      mem[dst + j] := word[j];
    }
    MovedPointwise(mem[..], m, dst, src, WSIZE);
  }

  // t words, lowest address first.
  method CopyWordsUp(mem: array<char>, ghost base: nat, dst: nat, src: nat, t: nat)
    requires dst < src && src + WSIZE * t <= mem.Length
    requires (base + dst) % WSIZE == 0 && (base + src) % WSIZE == 0
    modifies mem
    ensures mem[..] == Moved(old(mem[..]), dst, src, WSIZE * t)
  {
    hide Moved;
    ghost var m := mem[..];
    MovedNone(m, dst, src);
    var k := 0;
    while k < t
      invariant k <= t
      invariant mem[..] == Moved(m, dst, src, WSIZE * k)
    {
      CopyWord(mem, base, dst + WSIZE * k, src + WSIZE * k);
      MovedUp(m, dst, src, WSIZE * k, WSIZE);
      k := k + 1;
    }
  }

  // t words, highest address first.
  method CopyWordsDown(mem: array<char>, ghost base: nat, dst: nat, src: nat, t: nat)
    requires src < dst && dst + WSIZE * t <= mem.Length
    requires (base + dst) % WSIZE == 0 && (base + src) % WSIZE == 0
    modifies mem
    ensures mem[..] == Moved(old(mem[..]), dst, src, WSIZE * t)
  {
    hide Moved;
    ghost var m := mem[..];
    MovedNone(m, dst + WSIZE * t, src + WSIZE * t);
    var k := t;
    while k > 0
      invariant 0 <= k <= t
      invariant mem[..] == Moved(m, dst + WSIZE * k, src + WSIZE * k, WSIZE * (t - k))
    {
      k := k - 1;
      var at := WSIZE * k;
      CopyWord(mem, base, dst + at, src + at);
      MovedDown(m, dst + at, src + at, WSIZE * (t - k - 1), WSIZE);
    }
  }

  // The low three bits of two addresses, as the alignment tests read them.
  lemma LowBits(x: nat, y: nat)
    ensures And(x, WMASK) == x % WSIZE
    ensures And(Or(x, y), WMASK) == 0 <==> x % WSIZE == 0 && y % WSIZE == 0
    ensures And(Xor(x, y), WMASK) == 0 <==> x % WSIZE == y % WSIZE
  {
    EightIsPower();
    AndMask(x, 3);
    AndMask(Or(x, y), 3);
    AndMask(Xor(x, y), 3);
    OrMask(x, y, 3);
    XorMask(x, y, 3);
  }

  /** memcpy, which memmove calls: correct for every length, alignment and overlap.
      Cell i of mem has address base + i. Nothing is copied onto itself. */
  method MemCpy(mem: array<char>, base: nat, dst0: nat, src0: nat, length0: nat) returns (ghost copied: nat)
    requires dst0 + length0 <= mem.Length && src0 + length0 <= mem.Length
    modifies mem
    ensures mem[..] == Moved(old(mem[..]), dst0, src0, length0)
    ensures copied == if dst0 == src0 then 0 else length0
  {
    copied := 0;
    if length0 == 0 || dst0 == src0 {
      assert mem[..] == Moved(mem[..], dst0, src0, length0);
      return;
    }
    copied := length0;
    if dst0 < src0 {
      CopyForward(mem, base, dst0, src0, length0);
    } else {
      CopyBackward(mem, base, dst0, src0, length0);
    }
  }

  // Both ways from an address to a word boundary.
  lemma ToBoundary(x: nat)
    ensures (x + WSIZE - x % WSIZE) % WSIZE == 0
    ensures x >= x % WSIZE && (x - x % WSIZE) % WSIZE == 0
  {
  }

  // How many bytes the forward path copies singly before it turns to words: all of
  // them, unless the two addresses can be aligned together.
  function HeadUp(src: nat, dst: nat, length: nat): (t: nat)
    requires length > 0
    ensures t <= length
    ensures t < length ==> (src + t) % WSIZE == 0 && (dst + t) % WSIZE == 0
  {
    hide And, Or, Xor;
    LowBits(src, dst);
    ToBoundary(src);
    ToBoundary(dst);
    if And(Or(src, dst), WMASK) != 0 then
      if And(Xor(src, dst), WMASK) != 0 || length < WSIZE then length
      else WSIZE - And(src, WMASK)
    else 0
  }

  // The same for the backward path; src and dst are the addresses just past the ends.
  function HeadDown(src: nat, dst: nat, length: nat): (t: nat)
    requires 0 < length <= src && length <= dst
    ensures t <= length
    ensures t < length ==> (src - t) % WSIZE == 0 && (dst - t) % WSIZE == 0
  {
    hide And, Or, Xor;
    LowBits(src, dst);
    ToBoundary(src);
    ToBoundary(dst);
    if And(Or(src, dst), WMASK) != 0 then
      if And(Xor(src, dst), WMASK) != 0 || length <= WSIZE then length
      else And(src, WMASK)
    else 0
  }

  method CopyForward(mem: array<char>, base: nat, dst0: nat, src0: nat, length0: nat)
    requires dst0 < src0 && src0 + length0 <= mem.Length && length0 > 0
    modifies mem
    ensures mem[..] == Moved(old(mem[..]), dst0, src0, length0)
  {
    hide Moved;
    var dst, src, length := dst0, src0, length0;
    var t := HeadUp(base + src, base + dst, length);
    length := length - t;
    CopyBytesUp(mem, dst, src, t);
    dst, src := dst + t, src + t;

    assert length > 0 ==> (base + dst) % WSIZE == 0 && (base + src) % WSIZE == 0;
    CopyRestUp(mem, base, dst, src, length);
    MovedUp(old(mem[..]), dst0, src0, t, length);
  }

  lemma WordsAndRest(length: nat)
    ensures WSIZE * (length / WSIZE) + And(length, WMASK) == length
  {
    LowBits(length, length);
  }

  // The words that fit, and the few bytes behind them.
  method CopyRestUp(mem: array<char>, base: nat, dst: nat, src: nat, length: nat)
    requires dst < src && src + length <= mem.Length
    requires length > 0 ==> (base + dst) % WSIZE == 0 && (base + src) % WSIZE == 0
    modifies mem
    ensures mem[..] == Moved(old(mem[..]), dst, src, length)
  {
    hide Moved, And;
    var t := length / WSIZE;
    var rest := And(length, WMASK);
    WordsAndRest(length);
    if t > 0 {
      CopyWordsUp(mem, base, dst, src, t);
    } else {
      MovedNone(mem[..], dst, src);
    }
    var done := WSIZE * t;
    CopyBytesUp(mem, dst + done, src + done, rest);
    MovedUp(old(mem[..]), dst, src, done, rest);
  }

  method CopyBackward(mem: array<char>, base: nat, dst0: nat, src0: nat, length0: nat)
    requires src0 < dst0 && dst0 + length0 <= mem.Length && length0 > 0
    modifies mem
    ensures mem[..] == Moved(old(mem[..]), dst0, src0, length0)
  {
    hide Moved;
    var dst, src, length := dst0 + length0, src0 + length0, length0;
    var t := HeadDown(base + src, base + dst, length);
    length := length - t;
    dst, src := dst - t, src - t;
    CopyBytesDown(mem, dst, src, t);

    assert length > 0 ==> (base + dst) % WSIZE == 0 && (base + src) % WSIZE == 0;
    CopyRestDown(mem, base, dst, src, length);
    MovedDown(old(mem[..]), dst0, src0, t, length);
  }

  // The length cells that end at dst and src, whole words first.
  method CopyRestDown(mem: array<char>, base: nat, dst: nat, src: nat, length: nat)
    requires length <= src < dst <= mem.Length
    requires length > 0 ==> (base + dst) % WSIZE == 0 && (base + src) % WSIZE == 0
    modifies mem
    ensures mem[..] == Moved(old(mem[..]), dst - length, src - length, length)
  {
    hide Moved, And;
    var t := length / WSIZE;
    var rest := And(length, WMASK);
    WordsAndRest(length);
    var done := WSIZE * t;
    if t > 0 {
      CopyWordsDown(mem, base, dst - done, src - done, t);
    } else {
      MovedNone(mem[..], dst, src);
    }
    CopyBytesDown(mem, dst - length, src - length, rest);
    MovedDown(old(mem[..]), dst - length, src - length, done, rest);
  }

  // A slice of some array of bytes: base is the index of its first cell.
  datatype Slice = Slice(base: nat, len: nat, cap: nat)

  ghost predicate Fits(s: Slice, mem: array<char>) {
    s.base + s.cap <= mem.Length
  }

  // len - lbytes is an unsigned subtraction and wraps; cap - lbytes must not.
  function SliceLeft(s: Slice, lbytes: nat): Slice
    requires lbytes <= s.cap < U64
  {
    Slice(s.base + lbytes, if lbytes <= s.len then s.len - lbytes else s.len - lbytes + U64, s.cap - lbytes)
  }

  // Writing two texts one behind the other is writing their concatenation.
  lemma PutPut(m: seq<char>, d: nat, t: seq<char>, u: seq<char>)
    requires d + |t| + |u| <= |m|
    ensures Put(Put(m, d, t), d + |t|, u) == Put(m, d, t + u)
  {
    assert Put(m, d, t)[..d + |t|] == m[..d] + t;
    assert Put(m, d, t)[d + |t| + |u|..] == m[d + |t| + |u|..];
  }

  lemma PutReads(m: seq<char>, d: nat, t: seq<char>)
    requires d + |t| <= |m|
    ensures Put(m, d, t)[d..d + |t|] == t
    ensures Put(m, d, t)[..d] == m[..d] && Put(m, d, t)[d + |t|..] == m[d + |t|..]
  {
  }

  lemma PutNothing(m: seq<char>, d: nat)
    requires d <= |m|
    ensures Put(m, d, []) == m
  {
  }

  // One character, stored by itself.
  method PutChar(mem: array<char>, at: nat, ch: char)
    requires at < mem.Length
    modifies mem
    ensures mem[..] == Put(old(mem[..]), at, [ch])
  {
    mem[at] := ch;
  }

  /** string_in_slice of a text in the same memory, be it inside the slice itself. */
  method StringWithin(mem: array<char>, addr: nat, sl: Slice, src: nat, len: nat) returns (l: nat)
    requires Fits(sl, mem) && sl.len <= sl.cap && src + len <= mem.Length
    modifies mem
    ensures l == if sl.len > len then len else sl.len
    ensures mem[..] == Put(old(mem[..]), sl.base, old(mem[..])[src..src + l])
  {
    l := if sl.len > len then len else sl.len;
    ghost var copied := MemCpy(mem, addr, sl.base, src, l);
  }

  // The same for a text s in other memory, which is passed by value.
  method StringInSlice(mem: array<char>, sl: Slice, s: seq<char>) returns (l: nat)
    requires Fits(sl, mem) && sl.len <= sl.cap
    modifies mem
    ensures l == if sl.len > |s| then |s| else sl.len
    ensures mem[..] == Put(old(mem[..]), sl.base, s[..l])
  {
    l := if sl.len > |s| then |s| else sl.len;
    forall j | 0 <= j < l {
      mem[sl.base + j] := s[j];
    }
  }

  // c_strlen, which counts in an int.
  method CStrlen(s: array?<char>) returns (i: nat)
    requires s != null ==> exists k: int32 :: 0 <= k < s.Length && s[k] == '\0'
    ensures s == null ==> i == 0
    ensures s != null ==> i < s.Length && s[i] == '\0' && '\0' !in s[..i]
  {
    i := 0;
    if s == null {
      return;
    }
    while s[i] != '\0'
      invariant i < s.Length && i < 0x8000_0000 && '\0' !in s[..i]
      decreases s.Length - i
    {
      var k: int32 :| 0 <= k < s.Length && s[k] == '\0';
      assert k > i;
      i := i + 1;
    }
  }

  // Texts put one behind the other into a buffer of the given size on the stack, each cut
  // to the room that the others leave; here they fit.
  method ComposeTwo(size: nat, a: seq<char>, b: seq<char>) returns (text: seq<char>)
    requires |a| + |b| <= size < U64
    ensures text == a + b
  {
    hide Put;
    var msg := new char[size];
    ghost var m := msg[..];
    var s := Slice(0, size, size);
    var i := StringInSlice(msg, s, a);
    assert a[..i] == a;
    var j := StringInSlice(msg, SliceLeft(s, i), b);
    assert b[..j] == b;
    PutPut(m, 0, a, b);
    PutReads(m, 0, a + b);
    assert msg[..i + j] == msg[..][..i + j];
    text := msg[..i + j];
  }
}
