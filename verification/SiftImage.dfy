/** The reader's copy of the traced program's code, rebuilt page by page from the trace. */
module SiftImage {
  import opened Basics
  import opened Bytes
  import opened SiftFormat

  /** A page holds a byte for every offset that some record has defined. */
  type Page = map<int, byte>
  type Image = map<u64, Page>

  function PageOf(a: u64): u64 { a - a % PAGE }

  predicate Defined(image: Image, a: u64) {
    PageOf(a) in image && a % PAGE in image[PageOf(a)]
  }

  function ByteAt(image: Image, a: u64): byte
    requires Defined(image, a)
  {
    image[PageOf(a)][a % PAGE]
  }

  /** Storing one byte, allocating its page when this is the first byte of it. */
  function Put(image: Image, a: u64, b: byte): Image {
    var page: Page := if PageOf(a) in image then image[PageOf(a)] else map[];
    image[PageOf(a) := page[a % PAGE := b]]
  }

  function Store(image: Image, a: u64, bytes: seq<byte>): Image
    decreases |bytes|
  {
    if bytes == [] then image else Store(Put(image, a, bytes[0]), Add64(a, 1), bytes[1..])
  }

  /** A page record replaces the whole page. */
  function WholePage(bytes: seq<byte>): Page {
    map o | 0 <= o < |bytes| :: bytes[o]
  }

  /** The bytes of an instruction, or None when a page is missing or a byte was never defined. */
  function Rebuild(image: Image, a: u64, n: nat): (r: Option<seq<byte>>)
    ensures r.Some? ==> |r.value| == n
    decreases n
  {
    if n == 0 then Some([])
    else if !Defined(image, a) then None
    else
      match Rebuild(image, Add64(a, 1), n - 1)
      case None => None
      case Some(rest) => Some([ByteAt(image, a)] + rest)
  }

  // ----- the image against the program it copies

  function CodeBytes(code: int -> byte, a: int, n: nat): (s: seq<byte>)
    ensures |s| == n
  {
    seq(n, k requires 0 <= k < n => code(a + k))
  }

  /** Every defined byte is the program's byte at that address. */
  ghost predicate Sound(image: Image, code: int -> byte) {
    forall b, o :: b in image && o in image[b] ==> b % PAGE == 0 && 0 <= o < PAGE && image[b][o] == code(b + o)
  }

  ghost predicate Covers(image: Image, a: int, n: nat)
    requires 0 <= a && a + n <= TWO64
  {
    forall k :: a <= k < a + n ==> Defined(image, k)
  }

  lemma PutSound(image: Image, code: int -> byte, a: u64)
    requires Sound(image, code)
    ensures Sound(Put(image, a, code(a)), code)
    ensures Defined(Put(image, a, code(a)), a)
    ensures forall x: u64 :: Defined(image, x) ==> Defined(Put(image, a, code(a)), x)
  {
  }

  lemma {:induction false} StoreSound(image: Image, code: int -> byte, a: u64, n: nat)
    requires Sound(image, code) && a + n <= TWO64
    ensures var r := Store(image, a, CodeBytes(code, a, n));
            Sound(r, code) && Covers(r, a, n) && forall x: u64 :: Defined(image, x) ==> Defined(r, x)
    decreases n
  {
    hide Sound, Defined, Put;
    if n > 0 {
      var image1 := Put(image, a, code(a));
      PutSound(image, code, a);
      assert CodeBytes(code, a, n)[1..] == CodeBytes(code, a + 1, n - 1);
      if n > 1 {
        assert Add64(a, 1) == a + 1;
        StoreSound(image1, code, a + 1, n - 1);
      }
    }
  }

  lemma PageSound(image: Image, code: int -> byte, base: u64)
    requires Sound(image, code) && base % PAGE == 0 && base + PAGE <= TWO64
    ensures var r := image[base := WholePage(CodeBytes(code, base, PAGE))];
            Sound(r, code) && Covers(r, base, PAGE) && forall x: u64 :: Defined(image, x) ==> Defined(r, x)
  {
    var page := WholePage(CodeBytes(code, base, PAGE));
    assert forall o :: 0 <= o < PAGE ==> o in page && page[o] == code(base + o);
    var r := image[base := page];
    forall k: int | base <= k < base + PAGE
      ensures Defined(r, k)
    {
      assert PageOf(k) == base;
    }
  }

  /** Rebuilding a covered range gives exactly the program's bytes. */
  lemma {:induction false} RebuildSound(image: Image, code: int -> byte, a: u64, n: nat)
    requires Sound(image, code) && a + n <= TWO64 && Covers(image, a, n)
    ensures Rebuild(image, a, n) == Some(CodeBytes(code, a, n))
    decreases n
  {
    if n > 0 {
      assert Defined(image, a);
      assert ByteAt(image, a) == code(a) by { assert PageOf(a) + a % PAGE == a; }
      hide Sound, Defined, ByteAt;
      if n > 1 {
        assert Add64(a, 1) == a + 1;
        RebuildSound(image, code, a + 1, n - 1);
      }
      assert CodeBytes(code, a, n) == [code(a)] + CodeBytes(code, a + 1, n - 1);
    }
  }

  // ----- working page by page

  /** `bytes` followed by what was rebuilt behind them. */
  function Joined(bytes: seq<byte>, r: Option<seq<byte>>): Option<seq<byte>> {
    match r
    case None => None
    case Some(more) => Some(bytes + more)
  }

  predicate HasBytes(page: Page, offset: int, n: nat) {
    forall o :: offset <= o < offset + n ==> o in page
  }

  function PageBytes(page: Page, offset: int, n: nat): (s: seq<byte>)
    requires HasBytes(page, offset, n)
    ensures |s| == n
  {
    seq(n, k requires 0 <= k < n => page[offset + k])
  }

  lemma InPage(base: u64, o: int)
    requires base % PAGE == 0 && 0 <= o < PAGE
    ensures base + o < TWO64 && PageOf(base + o) == base && (base + o) % PAGE == o
  {
  }

  /** Inside one page, rebuilding is copying, and fails if any byte is undefined. */
  lemma {:induction false} RebuildInPage(image: Image, base: u64, offset: int, n: nat)
    requires base % PAGE == 0 && base in image && 0 <= offset < PAGE && offset + n <= PAGE
    ensures base + offset < TWO64
    ensures Rebuild(image, base + offset, n) ==
            if HasBytes(image[base], offset, n) then Some(PageBytes(image[base], offset, n)) else None
    decreases n
  {
    InPage(base, offset);
    if n > 0 && offset in image[base] {
      if n > 1 {
        InPage(base, offset + 1);
        assert Add64(base + offset, 1) == base + (offset + 1);
        RebuildInPage(image, base, offset + 1, n - 1);
      }
      if HasBytes(image[base], offset, n) {
        assert HasBytes(image[base], offset + 1, n - 1);
        assert PageBytes(image[base], offset, n) == [image[base][offset]] + PageBytes(image[base], offset + 1, n - 1);
      }
    }
  }

  lemma {:induction false} RebuildSplit(image: Image, a: u64, m: nat, n: nat)
    ensures Rebuild(image, a, m + n) ==
            if Rebuild(image, a, m).None? then None
            else Joined(Rebuild(image, a, m).value, Rebuild(image, Add64(a, m), n))
    decreases m
  {
    if m == 0 {
      assert Add64(a, 0) == a;
      var r := Rebuild(image, a, n);
      assert r.Some? ==> [] + r.value == r.value;
    } else if Defined(image, a) {
      RebuildSplit(image, Add64(a, 1), m - 1, n);
      AddTwice(a, 1, m - 1);
      var x, y := Rebuild(image, Add64(a, 1), m - 1), Rebuild(image, Add64(a, m), n);
      assert x.Some? && y.Some? ==>
        [ByteAt(image, a)] + (x.value + y.value) == ([ByteAt(image, a)] + x.value) + y.value;
    }
  }

  lemma {:induction false} StoreSplit(image: Image, a: u64, xs: seq<byte>, ys: seq<byte>)
    ensures Store(image, a, xs + ys) == Store(Store(image, a, xs), Add64(a, |xs|), ys)
    decreases |xs|
  {
    hide Put;
    if xs == [] {
      assert xs + ys == ys && Add64(a, 0) == a;
    } else {
      assert (xs + ys)[1..] == xs[1..] + ys;
      StoreSplit(Put(image, a, xs[0]), Add64(a, 1), xs[1..], ys);
      AddTwice(a, 1, |xs| - 1);
    }
  }

  function PageAt(image: Image, base: u64): Page {
    if base in image then image[base] else map[]
  }

  /** A page with bytes written into it at an offset. */
  function WriteInto(page: Page, offset: int, bytes: seq<byte>): Page
    decreases |bytes|
  {
    if bytes == [] then page else WriteInto(page[offset := bytes[0]], offset + 1, bytes[1..])
  }

  /** Inside one page, storing is writing into the page, which is allocated if it was missing. */
  lemma {:induction false} StoreInPage(image: Image, base: u64, offset: int, bytes: seq<byte>)
    requires base % PAGE == 0 && 0 <= offset && bytes != [] && offset + |bytes| <= PAGE
    ensures base + offset < TWO64
    ensures Store(image, base + offset, bytes) == image[base := WriteInto(PageAt(image, base), offset, bytes)]
    decreases |bytes|
  {
    InPage(base, offset);
    var page, first := PageAt(image, base), Put(image, base + offset, bytes[0]);
    assert first == image[base := page[offset := bytes[0]]];
    if |bytes| == 1 {
      StoreOne(first, Add64(base + offset, 1), bytes);
    } else {
      InPage(base, offset + 1);
      assert Add64(base + offset, 1) == base + (offset + 1);
      StoreInPage(first, base, offset + 1, bytes[1..]);
    }
  }

  lemma StoreOne(image: Image, a: u64, bytes: seq<byte>)
    requires |bytes| == 1
    ensures Store(image, a, bytes[1..]) == image
  {
  }
}
