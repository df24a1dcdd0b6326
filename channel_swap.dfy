/** The staging step of `processBytes`: the caller's R-G-B bytes are copied into
    the persistent B-G-R `bytearray` by three extended-slice assignments
    (`bgrbytes[k::3] = rgb_bytes[(2-k)::3]`), and the buffer is then wrapped as a
    native-size three-channel image.

    An extended-slice assignment on a `bytearray` has three outcomes. An empty
    right-hand side deletes the slice and shortens the buffer. A right-hand side
    of the slice's length overwrites it. Any other length raises ValueError. */
module ChannelSwap {
  import Arith

  /** Python's `s[k::3]`: every third byte of `s`, starting at offset `k`. */
  function Every3(s: seq<bv8>, k: nat): (r: seq<bv8>)
    requires k < 3
    ensures |r| == (|s| + 2 - k) / 3
    ensures forall i :: 0 <= i < |r| ==> k + 3 * i < |s| && r[i] == s[k + 3 * i]
  {
    seq((|s| + 2 - k) / 3, i requires 0 <= i < (|s| + 2 - k) / 3 => s[k + 3 * i])
  }

  /** `buf` after `buf[k::3] = vals`, for `vals` of the slice's length. */
  function WithChannel(buf: seq<bv8>, k: nat, vals: seq<bv8>): (r: seq<bv8>)
    requires k < 3 && |vals| == |Every3(buf, k)|
    ensures |r| == |buf|
  {
    seq(|buf|, j requires 0 <= j < |buf| => if j % 3 == k then vals[j / 3] else buf[j])
  }

  /** After `buf[k::3] = vals`, reading `buf[k::3]` gives `vals` back, and the
      bytes at the other offsets are those of `buf`. */
  lemma WithChannelReadBack(buf: seq<bv8>, k: nat, vals: seq<bv8>)
    requires k < 3 && |vals| == |Every3(buf, k)|
    ensures Every3(WithChannel(buf, k, vals), k) == vals
    ensures forall j :: 0 <= j < |buf| && j % 3 != k ==> WithChannel(buf, k, vals)[j] == buf[j]
  {
    var r := WithChannel(buf, k, vals);
    forall i | 0 <= i < |vals|
      ensures Every3(r, k)[i] == vals[i]
    {
      Arith.DivModUnique(k + 3 * i, 3, i, k);
    }
  }

  /** Byte `j` after `buf[k::3] = vals`: the slice's element `j / 3` at the
      offsets congruent to `k`, the old byte elsewhere. */
  lemma WithChannelAt(buf: seq<bv8>, k: nat, vals: seq<bv8>, j: int)
    requires k < 3 && |vals| == |Every3(buf, k)| && 0 <= j < |buf|
    ensures WithChannel(buf, k, vals)[j] == if j % 3 == k then vals[j / 3] else buf[j]
  {
  }

  /** One more byte adds one element to `s[k::3]` exactly when its offset `n`
      is congruent to `k` modulo 3. */
  lemma Every3LengthStep(n: nat, k: nat)
    requires k < 3
    ensures (n + 3 - k) / 3 == (n + 2 - k) / 3 + (if n % 3 == k then 1 else 0)
  {
    var q, s := n / 3, n % 3;
    if s == k {
      Arith.DivModUnique(n + 3 - k, 3, q + 1, 0);
      Arith.DivModUnique(n + 2 - k, 3, q, 2);
    } else if s > k {
      Arith.DivModUnique(n + 3 - k, 3, q + 1, s - k);
      Arith.DivModUnique(n + 2 - k, 3, q + 1, s - k - 1);
    } else {
      Arith.DivModUnique(n + 3 - k, 3, q, s - k + 3);
      Arith.DivModUnique(n + 2 - k, 3, q, s - k + 2);
    }
  }

  /** `del buf[k::3]`: the bytes at offsets not congruent to `k` modulo 3, in
      order; the buffer loses exactly the slice's bytes. */
  function WithoutChannel(buf: seq<bv8>, k: nat): (r: seq<bv8>)
    requires k < 3
    ensures |r| == |buf| - |Every3(buf, k)|
    decreases |buf|
  {
    if buf == [] then []
    else
      var n := |buf| - 1;
      Every3LengthStep(n, k);
      WithoutChannel(buf[..n], k) + (if n % 3 == k then [] else [buf[n]])
  }

  /** `buf[k::3] = vals` on a `bytearray`: an empty `vals` deletes the slice,
      one of the slice's length overwrites it, and any other length raises
      ValueError (the flag is false) with `buf` unchanged. */
  function SliceAssign(buf: seq<bv8>, k: nat, vals: seq<bv8>): (r: (bool, seq<bv8>))
    requires k < 3
    ensures |r.1| <= |buf|
    ensures |vals| > 0 ==> |r.1| == |buf|
    ensures !r.0 ==> r.1 == buf
  {
    if |vals| == 0 then (true, WithoutChannel(buf, k))
    else if |vals| != |Every3(buf, k)| then (false, buf)
    else (true, WithChannel(buf, k, vals))
  }

  /** The three slice assignments of `processBytes`, in source order. The first
      one to raise ValueError stops the sequence; the ones before it have
      already changed the buffer. The flag says whether all three went through. */
  function StageChannels(buf: seq<bv8>, rgb: seq<bv8>): (r: (bool, seq<bv8>))
    ensures |r.1| <= |buf|
    ensures |rgb| >= 3 ==> |r.1| == |buf|
  {
    var s1 := SliceAssign(buf, 0, Every3(rgb, 2));
    if !s1.0 then s1
    else
      var s2 := SliceAssign(s1.1, 1, Every3(rgb, 1));
      if !s2.0 then s2
      else SliceAssign(s2.1, 2, Every3(rgb, 0))
  }

  /** Offset of the byte that swaps places with byte `j`: channel 0 and channel
      2 of the same pixel trade places, channel 1 stays. */
  function Mate(j: int): int {
    j - j % 3 + (2 - j % 3)
  }

  /** Reverse the channel order of every three-byte pixel. */
  function SwapPixels(s: seq<bv8>): (r: seq<bv8>)
    requires |s| % 3 == 0
    ensures |r| == |s|
    ensures forall j :: 0 <= j < |s| ==> 0 <= Mate(j) < |s| && r[j] == s[Mate(j)]
  {
    seq(|s|, j requires 0 <= j < |s| => s[j - j % 3 + (2 - j % 3)])
  }

  /** Per pixel i: output bytes 3i, 3i+1, 3i+2 are input bytes 3i+2, 3i+1, 3i. */
  lemma SwapPixelsAt(s: seq<bv8>, i: int)
    requires |s| % 3 == 0 && 0 <= i < |s| / 3
    ensures 3 * i + 2 < |s|
    ensures SwapPixels(s)[3 * i] == s[3 * i + 2]
    ensures SwapPixels(s)[3 * i + 1] == s[3 * i + 1]
    ensures SwapPixels(s)[3 * i + 2] == s[3 * i]
  {
    Arith.DivModUnique(3 * i, 3, i, 0);
    Arith.DivModUnique(3 * i + 1, 3, i, 1);
    Arith.DivModUnique(3 * i + 2, 3, i, 2);
  }

  /** The mate of a byte lies in the same pixel, and the mate of the mate is
      the byte itself. */
  lemma MateInvolution(j: int)
    requires j >= 0
    ensures Mate(j) / 3 == j / 3 && Mate(Mate(j)) == j
  {
    Arith.DivModUnique(j, 3, j / 3, j % 3);
    Arith.DivModUnique(Mate(j), 3, j / 3, 2 - j % 3);
  }

  /** Swapping the channels twice gives back the original bytes. */
  lemma SwapPixelsInvolution(s: seq<bv8>)
    requires |s| % 3 == 0
    ensures SwapPixels(SwapPixels(s)) == s
  {
    var s1 := SwapPixels(s);
    var t := SwapPixels(s1);
    forall j | 0 <= j < |s|
      ensures t[j] == s[j]
    {
      MateInvolution(j);
      assert t[j] == s1[Mate(j)];
      assert s1[Mate(j)] == s[Mate(Mate(j))];
    }
  }

  /** The buffer after overwriting all three channels from `rgb`. */
  function Overwritten(buf: seq<bv8>, rgb: seq<bv8>): (r: seq<bv8>)
    requires |buf| % 3 == 0 && |rgb| == |buf|
    ensures |r| == |buf|
  {
    var n := |buf| / 3;
    Arith.DivModUnique(|buf|, 3, n, 0);
    Arith.DivModUnique(|buf| + 1, 3, n, 1);
    Arith.DivModUnique(|buf| + 2, 3, n, 2);
    var b1 := WithChannel(buf, 0, Every3(rgb, 2));
    var b2 := WithChannel(b1, 1, Every3(rgb, 1));
    WithChannel(b2, 2, Every3(rgb, 0))
  }

  /** A correctly sized, non-empty input overwrites all three channels. */
  lemma StageChannelsOverwrites(buf: seq<bv8>, rgb: seq<bv8>)
    requires |buf| % 3 == 0 && |rgb| == |buf| && |buf| > 0
    ensures StageChannels(buf, rgb) == (true, Overwritten(buf, rgb))
  {
    var n := |buf| / 3;
    Arith.DivModUnique(|buf|, 3, n, 0);
    Arith.DivModUnique(|buf| + 1, 3, n, 1);
    Arith.DivModUnique(|buf| + 2, 3, n, 2);
    var blue, green, red := Every3(rgb, 2), Every3(rgb, 1), Every3(rgb, 0);
    assert |blue| == |green| == |red| == n >= 1;
    var b1 := WithChannel(buf, 0, blue);
    var b2 := WithChannel(b1, 1, green);
    assert SliceAssign(buf, 0, blue) == (true, b1);
    assert SliceAssign(b1, 1, green) == (true, b2);
    assert SliceAssign(b2, 2, red) == (true, WithChannel(b2, 2, red));
  }

  /** Byte `j` of the overwritten buffer is the input byte at its mate. */
  lemma OverwrittenAt(buf: seq<bv8>, rgb: seq<bv8>, j: int)
    requires |buf| % 3 == 0 && |rgb| == |buf| && 0 <= j < |buf|
    ensures 0 <= Mate(j) < |rgb| && Overwritten(buf, rgb)[j] == rgb[Mate(j)]
  {
    var blue, green, red := Every3(rgb, 2), Every3(rgb, 1), Every3(rgb, 0);
    var n := |buf| / 3;
    Arith.DivModUnique(|buf|, 3, n, 0);
    Arith.DivModUnique(|buf| + 1, 3, n, 1);
    Arith.DivModUnique(|buf| + 2, 3, n, 2);
    var b1 := WithChannel(buf, 0, blue);
    var b2 := WithChannel(b1, 1, green);
    var b3 := WithChannel(b2, 2, red);
    assert Overwritten(buf, rgb) == b3;
    var q, r := j / 3, j % 3;
    Arith.DivModUnique(j, 3, q, r);
    Arith.DivModUnique(Mate(j), 3, q, 2 - r);
    WithChannelAt(buf, 0, blue, j);
    WithChannelAt(b1, 1, green, j);
    WithChannelAt(b2, 2, red, j);
  }

  /** With a correctly sized input all three assignments succeed and the buffer
      holds the input with every pixel's channels reversed, whatever it held
      before. */
  lemma StageChannelsSwaps(buf: seq<bv8>, rgb: seq<bv8>)
    requires |buf| % 3 == 0 && |rgb| == |buf|
    ensures StageChannels(buf, rgb) == (true, SwapPixels(rgb))
  {
    var sw := SwapPixels(rgb);
    if |buf| == 0 {
      assert WithoutChannel([], 0) == [] && WithoutChannel([], 1) == [] && WithoutChannel([], 2) == [];
      assert StageChannels(buf, rgb) == (true, []);
    } else {
      StageChannelsOverwrites(buf, rgb);
      var w := Overwritten(buf, rgb);
      forall j | 0 <= j < |buf|
        ensures w[j] == sw[j]
      {
        OverwrittenAt(buf, rgb, j);
      }
      assert w == sw;
    }
  }

  /** Two more bytes reach the next multiple of 3 unless `x` already is one. */
  lemma PlusTwoThirds(x: int)
    ensures (x + 2) / 3 == x / 3 + (if x % 3 == 0 then 0 else 1)
  {
    if x % 3 == 0 {
      Arith.DivModUnique(x + 2, 3, x / 3, 2);
    } else {
      Arith.DivModUnique(x + 2, 3, x / 3 + 1, x % 3 - 1);
    }
  }

  /** Two lengths whose slice lengths agree crosswise are equal and a multiple
      of 3. */
  lemma ThirdsAgree(a: int, b: int)
    requires a / 3 == (b + 2) / 3 && (a + 2) / 3 == b / 3
    ensures a == b && b % 3 == 0
  {
    PlusTwoThirds(a);
    PlusTwoThirds(b);
  }

  /** For an input of at least 3 bytes no slice is deleted, and the staging
      succeeds exactly when the input has the buffer's length, a multiple of 3. */
  lemma StageChannelsSucceedsIff(buf: seq<bv8>, rgb: seq<bv8>)
    requires |rgb| >= 3
    ensures StageChannels(buf, rgb).0 <==> |rgb| == |buf| && |buf| % 3 == 0
  {
    var a, b := |rgb|, |buf|;
    if StageChannels(buf, rgb).0 {
      assert a / 3 == (b + 2) / 3 && (a + 1) / 3 == (b + 1) / 3 && (a + 2) / 3 == b / 3;
      ThirdsAgree(a, b);
    } else if a == b && b % 3 == 0 {
      StageChannelsSwaps(buf, rgb);
    }
  }

  /** Byte `j` of the buffer that a wrongly sized input leaves behind: the
      input's blue byte if the blue assignment went through (input 1 or 2 bytes
      too long), its green byte if the green one did too (1 byte too long),
      and otherwise the old byte. */
  function PartialByteValue(buf: seq<bv8>, rgb: seq<bv8>, j: int): bv8
    requires |buf| % 3 == 0 && 0 <= j < |buf|
  {
    Arith.DivModUnique(j, 3, j / 3, j % 3);
    Arith.DivModUnique(|buf|, 3, |buf| / 3, 0);
    if j % 3 == 0 && (|rgb| == |buf| + 1 || |rgb| == |buf| + 2) then rgb[j + 2]
    else if j % 3 == 1 && |rgb| == |buf| + 1 then rgb[j]
    else buf[j]
  }

  /** What a wrongly sized input of at least 3 bytes leaves in the buffer: one
      byte too long has already overwritten channels 0 and 1, two bytes too
      long channel 0, and any other length nothing. */
  lemma StageChannelsPartialWrite(buf: seq<bv8>, rgb: seq<bv8>)
    requires |buf| % 3 == 0 && |rgb| != |buf| && |rgb| >= 3
    ensures !StageChannels(buf, rgb).0
    ensures forall j :: 0 <= j < |buf| ==>
      StageChannels(buf, rgb).1[j] == PartialByteValue(buf, rgb, j)
  {
    StageChannelsSucceedsIff(buf, rgb);
    forall j | 0 <= j < |buf|
      ensures StageChannels(buf, rgb).1[j] == PartialByteValue(buf, rgb, j)
    {
      PartialByte(buf, rgb, j);
    }
  }

  /** Byte `j` after a wrongly sized input, by the three cases. */
  lemma PartialByte(buf: seq<bv8>, rgb: seq<bv8>, j: int)
    requires |buf| % 3 == 0 && |rgb| != |buf| && |rgb| >= 3 && 0 <= j < |buf|
    ensures StageChannels(buf, rgb).1[j] == PartialByteValue(buf, rgb, j)
  {
    if |rgb| == |buf| + 1 {
      PartialByteOneOver(buf, rgb, j);
    } else if |rgb| == |buf| + 2 {
      PartialByteTwoOver(buf, rgb, j);
    } else {
      OtherLengthFailsFirst(buf, rgb);
    }
  }

  /** The buffer after the blue and green assignments of an input one byte
      too long. */
  function BlueGreenWritten(buf: seq<bv8>, rgb: seq<bv8>): (r: seq<bv8>)
    requires |buf| % 3 == 0 && |rgb| == |buf| + 1
    ensures |r| == |buf|
  {
    var n := |buf| / 3;
    Arith.DivModUnique(|buf|, 3, n, 0);
    Arith.DivModUnique(|buf| + 1, 3, n, 1);
    Arith.DivModUnique(|buf| + 2, 3, n, 2);
    WithChannel(WithChannel(buf, 0, Every3(rgb, 2)), 1, Every3(rgb, 1))
  }

  /** One byte too long: blue and green are written, red fails. */
  lemma StageOneOver(buf: seq<bv8>, rgb: seq<bv8>)
    requires |buf| % 3 == 0 && |rgb| == |buf| + 1
    ensures StageChannels(buf, rgb) == (false, BlueGreenWritten(buf, rgb))
  {
    var blue, green, red := Every3(rgb, 2), Every3(rgb, 1), Every3(rgb, 0);
    var n := |buf| / 3;
    Arith.DivModUnique(|buf|, 3, n, 0);
    Arith.DivModUnique(|buf| + 1, 3, n, 1);
    Arith.DivModUnique(|buf| + 2, 3, n, 2);
    Arith.DivModUnique(|buf| + 3, 3, n + 1, 0);
    assert |blue| == |green| == n && |red| == n + 1;
    var b1 := WithChannel(buf, 0, blue);
    var b2 := WithChannel(b1, 1, green);
    assert SliceAssign(buf, 0, blue) == (true, b1);
    assert SliceAssign(b1, 1, green) == (true, b2);
    assert SliceAssign(b2, 2, red) == (false, b2);
  }

  /** Byte `j` of the buffer once blue and green are written. */
  lemma BlueGreenWrittenAt(buf: seq<bv8>, rgb: seq<bv8>, j: int)
    requires |buf| % 3 == 0 && |rgb| == |buf| + 1 && 0 <= j < |buf|
    ensures BlueGreenWritten(buf, rgb)[j] == PartialByteValue(buf, rgb, j)
  {
    var blue, green := Every3(rgb, 2), Every3(rgb, 1);
    var n := |buf| / 3;
    Arith.DivModUnique(|buf|, 3, n, 0);
    Arith.DivModUnique(|buf| + 1, 3, n, 1);
    Arith.DivModUnique(|buf| + 2, 3, n, 2);
    var b1 := WithChannel(buf, 0, blue);
    assert BlueGreenWritten(buf, rgb) == WithChannel(b1, 1, green);
    var q := j / 3;
    Arith.DivModUnique(j, 3, q, j % 3);
    WithChannelAt(buf, 0, blue, j);
    WithChannelAt(b1, 1, green, j);
    if j % 3 == 0 {
      assert blue[q] == rgb[j + 2];
    } else if j % 3 == 1 {
      assert green[q] == rgb[j];
    }
  }

  /** Byte `j` after an input one byte too long. */
  lemma PartialByteOneOver(buf: seq<bv8>, rgb: seq<bv8>, j: int)
    requires |buf| % 3 == 0 && |rgb| == |buf| + 1 && 0 <= j < |buf|
    ensures StageChannels(buf, rgb).1[j] == PartialByteValue(buf, rgb, j)
  {
    StageOneOver(buf, rgb);
    BlueGreenWrittenAt(buf, rgb, j);
  }

  /** Two bytes too long: blue is written, green fails. */
  lemma PartialByteTwoOver(buf: seq<bv8>, rgb: seq<bv8>, j: int)
    requires |buf| % 3 == 0 && |rgb| == |buf| + 2 && 0 <= j < |buf|
    ensures StageChannels(buf, rgb).1[j] == PartialByteValue(buf, rgb, j)
  {
    var blue := Every3(rgb, 2);
    var n := |buf| / 3;
    Arith.DivModUnique(|buf|, 3, n, 0);
    Arith.DivModUnique(|buf| + 1, 3, n, 1);
    Arith.DivModUnique(|buf| + 2, 3, n, 2);
    Arith.DivModUnique(|buf| + 3, 3, n + 1, 0);
    var b1 := WithChannel(buf, 0, blue);
    assert StageChannels(buf, rgb) == (false, b1);
    var q, r := j / 3, j % 3;
    Arith.DivModUnique(j, 3, q, r);
    WithChannelAt(buf, 0, blue, j);
  }

  /** Any other wrong length of at least 3 bytes fails at the first assignment. */
  lemma OtherLengthFailsFirst(buf: seq<bv8>, rgb: seq<bv8>)
    requires |buf| % 3 == 0 && |rgb| >= 3
    requires |rgb| != |buf| && |rgb| != |buf| + 1 && |rgb| != |buf| + 2
    ensures StageChannels(buf, rgb) == (false, buf)
  {
    var n, m := |buf| / 3, |rgb| / 3;
    Arith.DivModUnique(|buf|, 3, n, 0);
    Arith.DivModUnique(|buf| + 2, 3, n, 2);
    Arith.DivModUnique(|rgb|, 3, m, |rgb| % 3);
    assert m != n;
  }

  /** An input shorter than one pixel empties `rgb_bytes[2::3]`, so the first
      assignment deletes the blue channel: the buffer always ends shorter,
      and an empty input raises nothing at all. */
  lemma ShortInputShrinks(buf: seq<bv8>, rgb: seq<bv8>)
    requires |rgb| <= 2 && |buf| >= 1
    ensures |rgb| == 0 ==> StageChannels(buf, rgb).0
    ensures |StageChannels(buf, rgb).1| < |buf|
  {
    assert |Every3(rgb, 2)| == 0;
    var s1 := SliceAssign(buf, 0, Every3(rgb, 2));
    assert s1 == (true, WithoutChannel(buf, 0));
    assert |s1.1| < |buf|;
    if |rgb| == 0 {
      assert |Every3(rgb, 1)| == 0 && |Every3(rgb, 0)| == 0;
    }
  }

  /** One byte into a six-byte buffer raises nothing: blue and green are
      deleted, leaving three bytes, and the last one becomes the input byte. */
  lemma OneByteIntoSixBytes(buf: seq<bv8>, x: bv8)
    requires |buf| == 6
    ensures StageChannels(buf, [x]).0
    ensures |StageChannels(buf, [x]).1| == 3 && StageChannels(buf, [x]).1[2] == x
  {
    var rgb := [x];
    assert Every3(rgb, 2) == [] && Every3(rgb, 1) == [] && Every3(rgb, 0) == [x];
    var b1 := WithoutChannel(buf, 0);
    assert |b1| == 4;
    var b2 := WithoutChannel(b1, 1);
    assert |b2| == 3;
    assert StageChannels(buf, rgb) == (true, WithChannel(b2, 2, [x]));
    Arith.DivModUnique(2, 3, 0, 2);
  }

  /** Once an input shorter than one pixel has shrunk the buffer, every later
      input of the original buffer's length raises ValueError. */
  lemma ShrunkBufferRejects(buf: seq<bv8>, short: seq<bv8>, rgb: seq<bv8>)
    requires |buf| >= 3 && |short| <= 2 && |rgb| == |buf|
    ensures !StageChannels(StageChannels(buf, short).1, rgb).0
  {
    ShortInputShrinks(buf, short);
    StageChannelsSucceedsIff(StageChannels(buf, short).1, rgb);
  }

  /** Writes `buf[k::3] = vals` in place. */
  method AssignEvery3(buf: array<bv8>, k: nat, vals: seq<bv8>)
    requires k < 3 && |vals| == (buf.Length + 2 - k) / 3
    modifies buf
    ensures buf[..] == WithChannel(old(buf[..]), k, vals)
  {
    var i := 0;
    while i < |vals|
      invariant 0 <= i <= |vals|
      invariant forall j :: 0 <= j < buf.Length ==>
        buf[j] == if j % 3 == k && j / 3 < i then vals[j / 3] else old(buf[j])
    {
      buf[k + 3 * i] := vals[i];
      i := i + 1;
    }
  }

  /** Performs `del buf[k::3]`. The shortened buffer is a new array holding the
      kept bytes in order; `buf` itself is left as it was. */
  method DeleteEvery3(buf: array<bv8>, k: nat) returns (r: array<bv8>)
    requires k < 3
    ensures fresh(r) && r[..] == WithoutChannel(buf[..], k)
  {
    var kept: seq<bv8> := [];
    var j := 0;
    while j < buf.Length
      invariant 0 <= j <= buf.Length
      invariant kept == WithoutChannel(buf[..j], k)
    {
      assert buf[..j + 1][..j] == buf[..j];
      if j % 3 != k {
        kept := kept + [buf[j]];
      }
      j := j + 1;
    }
    assert buf[..j] == buf[..];
    r := new bv8[|kept|](i requires 0 <= i < |kept| => kept[i]);
  }

  /** One extended-slice assignment on the staging buffer. After a deletion
      the buffer is the new, shorter array; otherwise it is `buf`. */
  method AssignSlice(buf: array<bv8>, k: nat, vals: seq<bv8>) returns (ok: bool, r: array<bv8>)
    requires k < 3
    modifies buf
    ensures r == buf || fresh(r)
    ensures (ok, r[..]) == SliceAssign(old(buf[..]), k, vals)
  {
    if |vals| == 0 {
      r := DeleteEvery3(buf, k);
      ok := true;
    } else if |vals| != (buf.Length + 2 - k) / 3 {
      ok, r := false, buf;
    } else {
      AssignEvery3(buf, k, vals);
      ok, r := true, buf;
    }
  }

  /** The staging step on the persistent buffer, as `processBytes` runs it;
      `staged` is the buffer afterwards. */
  method StageInPlace(buf: array<bv8>, rgb: seq<bv8>) returns (ok: bool, staged: array<bv8>)
    modifies buf
    ensures staged == buf || fresh(staged)
    ensures (ok, staged[..]) == StageChannels(old(buf[..]), rgb)
  {
    ok, staged := AssignSlice(buf, 0, Every3(rgb, 2));
    if !ok {
      return;
    }
    ok, staged := AssignSlice(staged, 1, Every3(rgb, 1));
    if !ok {
      return;
    }
    ok, staged := AssignSlice(staged, 2, Every3(rgb, 0));
  }

  /** A three-channel 8-bit image over a byte buffer, as `cv.SetData` sets it
      up: `rowStep` bytes from the start of one row to the next. */
  datatype Frame = Frame(data: seq<bv8>, width: int, height: int, rowStep: int)

  /** The three bytes of one pixel, in memory order. */
  datatype Pixel = Pixel(c0: bv8, c1: bv8, c2: bv8)

  /** Offset of the first byte of the pixel at (row, col). */
  function PixelStart(f: Frame, row: int, col: int): int {
    row * f.rowStep + 3 * col
  }

  function PixelAt(f: Frame, row: int, col: int): Pixel
    requires 0 <= row && 0 <= col && 0 <= f.rowStep
    requires row * f.rowStep + 3 * col + 2 < |f.data|
  {
    var o := PixelStart(f, row, col);
    Pixel(f.data[o], f.data[o + 1], f.data[o + 2])
  }

  /** The native image wrapped around the staging buffer, with a row step of
      three bytes per native pixel: the pixel at (row, col) starts at the
      bytes of the caller's pixel row * width + col. */
  function StagedImage(bytes: seq<bv8>, width: int, height: int): (f: Frame)
    ensures f.data == bytes && f.width == width && f.height == height
    ensures forall row, col :: PixelStart(f, row, col) == 3 * (row * width + col)
  {
    Frame(bytes, width, height, 3 * width)
  }

  /** The wrapping as the source writes it: the row step is taken from the
      scaled-down width although the image has the native width, so the pixel
      at (row, col) starts at the bytes of the caller's pixel
      row * scaledWidth + col. */
  function StagedImageAsWritten(bytes: seq<bv8>, width: int, height: int, scaledWidth: int): (f: Frame)
    ensures f.data == bytes && f.width == width && f.height == height
    ensures forall row, col :: PixelStart(f, row, col) == 3 * (row * scaledWidth + col)
  {
    Frame(bytes, width, height, 3 * scaledWidth)
  }

  /** In the staged image, the pixel at (row, col) is the caller's pixel
      row * width + col with its channels reversed. */
  lemma StagedImagePixels(rgb: seq<bv8>, width: int, height: int, row: int, col: int)
    requires 1 <= width && 1 <= height && |rgb| == 3 * (width * height)
    requires 0 <= row < height && 0 <= col < width
    ensures var i := row * width + col;
      0 <= i < width * height &&
      row * (3 * width) + 3 * col + 2 < |rgb| &&
      PixelAt(StagedImage(SwapPixels(rgb), width, height), row, col)
        == Pixel(rgb[3 * i + 2], rgb[3 * i + 1], rgb[3 * i])
  {
    var i := row * width + col;
    PixelIndexBound(width, height, row, col);
    RowOffset(row, col, width);
    Arith.DivModUnique(|rgb|, 3, width * height, 0);
    SwapPixelsAt(rgb, i);
  }

  lemma RowOffset(row: int, col: int, width: int)
    ensures row * (3 * width) + 3 * col == 3 * (row * width + col)
  {
  }

  lemma PixelIndexBound(width: int, height: int, row: int, col: int)
    requires 1 <= width && 0 <= row < height && 0 <= col < width
    ensures row * width + col < width * height
  {
    calc {
      row * width + col;
    <  row * width + width;
    == (row + 1) * width;
    <= { Arith.MulMonotone(row + 1, height, width); }
      height * width;
    }
  }

  /** With the source's row step and a scale-down of 2, a 4 x 2 image shows at
      row 1, column 0 the pixel the caller put at row 0, column 2. */
  lemma AsWrittenRowStepMisplacesRows(rgb: seq<bv8>)
    requires |rgb| == 24
    ensures PixelAt(StagedImageAsWritten(SwapPixels(rgb), 4, 2, 4 / 2), 1, 0)
         == PixelAt(StagedImage(SwapPixels(rgb), 4, 2), 0, 2)
    ensures PixelAt(StagedImage(SwapPixels(rgb), 4, 2), 1, 0) == Pixel(rgb[14], rgb[13], rgb[12])
    ensures PixelAt(StagedImage(SwapPixels(rgb), 4, 2), 0, 2) == Pixel(rgb[8], rgb[7], rgb[6])
  {
    SwapPixelsAt(rgb, 2);
    SwapPixelsAt(rgb, 4);
  }
}
