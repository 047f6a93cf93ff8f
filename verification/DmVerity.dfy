/** dm-verity block information: the label written by pkg/tarfs/tarfs.go and read, with validation, by
    snapshot/mount_option.go. */
module DmVerity {
  import opened Base
  import opened Text
  import opened Decimal

  datatype Info = Info(hash: string, blockNum: nat, blockSize: nat, hashSize: nat, offset: nat)

  const HASH_TYPE := "sha256:"

  /** The label */
  function Label(dataBlocks: nat, hashOffset: nat, rootHash: string): string {
    Dec(dataBlocks) + [','] + (Dec(hashOffset) + [','] + (HASH_TYPE + rootHash))
  }

  // ---- Reading ----

  /** A decimal number up to the first comma, and what follows it. */
  function Number(s: string): Option<(nat, string)> {
    var parts := Split(s, ',');
    if |parts| < 2 then None
    else
      var n := ParseUint64(parts[0]);
      if n.None? then None else Some((n.value, Join(parts[1..], ',')))
  }

  /** The white space at which fmt ends a word: the ASCII and the Unicode spaces. */
  predicate IsSpace(c: char) {
    var n := c as int;
    || 0x09 <= n <= 0x0D || n == 0x20 || n == 0x85 || n == 0xA0 || n == 0x1680 || 0x2000 <= n <= 0x200A
    || n == 0x2028 || n == 0x2029 || n == 0x202F || n == 0x205F || n == 0x3000
  }

  /** A word: what comes before the first white space, if anything. */
  function Word(s: string): string {
    if s == "" || IsSpace(s[0]) then "" else [s[0]] + Word(s[1..])
  }

  /** The scan of "%d,%d,sha256:%s" on texts that begin with a digit. */
  function Scan(s: string): Option<(nat, nat, string)> {
    var first := Number(s);
    if first.None? then None
    else
      var second := Number(first.value.1);
      if second.None? || !HasPrefix(second.value.1, HASH_TYPE) then None
      else
        var hash := Word(second.value.1[|HASH_TYPE|..]);
        if hash == "" then None else Some((first.value.0, second.value.0, hash))
  }

  predicate IsHex(c: char) {
    '0' <= c <= '9' || 'a' <= c <= 'f' || 'A' <= c <= 'F'
  }

  predicate ValidHash(s: string) {
    |s| == 64 && forall i :: 0 <= i < |s| ==> IsHex(s[i])
  }

  predicate ValidBlockSize(n: nat) {
    512 <= n <= 0x8_0000
  }

  /** The product of two uint64 values */
  function Mul64(a: nat, b: nat): nat {
    (a * b) % 0x1_0000_0000_0000_0000
  }

  predicate Validate(d: Info) {
    && ValidHash(d.hash)
    && d.blockNum != 0 && d.blockNum <= 0xFFFF_FFFF
    && ValidBlockSize(d.blockSize) && ValidBlockSize(d.hashSize)
    && d.offset % d.hashSize == 0 && d.offset >= Mul64(d.blockSize, d.blockNum)
  }

  function Parse(info: string): Option<Info> {
    var scanned := Scan(info);
    if scanned.None? then None
    else
      var (blocks, offset, hash) := scanned.value;
      var d := Info(hash, blocks, 512, 4096, offset);
      if Validate(d) then Some(d) else None
  }

  // ---- Reading back what was written ----

  lemma {:induction false} DigitsHaveNoComma(s: string)
    requires AllDigits(s)
    ensures ',' !in s
  {
  }

  lemma NumberReadBack(n: nat, rest: string)
    ensures Number(Dec(n) + [','] + rest) == if n <= MAX_UINT64 then Some((n, rest)) else None
  {
    ValueOfDec(n);
    DigitsHaveNoComma(Dec(n));
    SplitWhole(Dec(n), ',');
    SplitAt(Dec(n), rest, ',');
    ParseOfDec(n);
    JoinOfSplit(rest, ',');
    assert ([Dec(n)] + Split(rest, ','))[1..] == Split(rest, ',');
  }

  ghost predicate SpaceFree(s: string) {
    forall c :: c in s ==> !IsSpace(c)
  }

  lemma {:induction false} WordWhole(s: string)
    requires SpaceFree(s)
    ensures Word(s) == s
  {
    if s != "" {
      assert s[0] in s && forall c :: c in s[1..] ==> c in s;
      WordWhole(s[1..]);
      assert [s[0]] + s[1..] == s;
    }
  }

  lemma ScanReadBack(blocks: nat, offset: nat, hash: string)
    requires SpaceFree(hash) && blocks <= MAX_UINT64 && offset <= MAX_UINT64
    ensures Scan(Label(blocks, offset, hash)) == if hash == "" then None else Some((blocks, offset, hash))
  {
    var tail := HASH_TYPE + hash;
    NumberReadBack(offset, tail);
    NumberReadBack(blocks, Dec(offset) + [','] + tail);
    assert tail[|HASH_TYPE|..] == hash;
    WordWhole(hash);
  }

  // ---- Exactly which texts are taken ----

  /** `s` is `n` in decimal, a comma and `rest`. */
  ghost predicate NumberThen(s: string, n: nat, rest: string) {
    exists x :: s == x + [','] + rest && Writes(x, n) && n <= 0xFFFF_FFFF_FFFF_FFFF
  }

  lemma WrittenHasNoComma(x: string, n: nat)
    requires Writes(x, n)
    ensures ',' !in x && ParseUint64(x) == if n <= MAX_UINT64 then Some(n) else None
  {
    WritesMeans(x, n);
    DigitsHaveNoComma(x);
  }

  lemma NumberIff(s: string, n: nat, rest: string)
    ensures Number(s) == Some((n, rest)) <==> NumberThen(s, n, rest)
  {
    var parts := Split(s, ',');
    JoinOfSplit(s, ',');
    if Number(s) == Some((n, rest)) {
      ParseUint64Iff(parts[0], n);
      assert s == parts[0] + [','] + rest;
    }
    if x :| s == x + [','] + rest && Writes(x, n) && n <= 0xFFFF_FFFF_FFFF_FFFF {
      WrittenHasNoComma(x, n);
      SplitWhole(x, ',');
      SplitAt(x, rest, ',');
      JoinOfSplit(rest, ',');
      assert ([x] + Split(rest, ','))[1..] == Split(rest, ',');
    }
  }

  /** `s` begins with the space-free `h`, and goes on with white space if at all. */
  ghost predicate WordThen(s: string, h: string) {
    h <= s && SpaceFree(h) && (|h| < |s| ==> IsSpace(s[|h|]))
  }

  lemma {:induction false} WordIff(s: string, h: string)
    ensures Word(s) == h <==> WordThen(s, h)
  {
    if s == "" || IsSpace(s[0]) {
      assert h != "" && h <= s ==> s[0] == h[0] && h[0] in h;
    } else if h != "" && h[0] == s[0] {
      WordIff(s[1..], h[1..]);
      assert h == [h[0]] + h[1..];
      assert h <= s <==> h[1..] <= s[1..];
    }
  }

  /** The scan takes exactly a count, an offset and the marked hash, up to white space. */
  lemma ScanIff(s: string, blocks: nat, offset: nat, hash: string)
    ensures Scan(s) == Some((blocks, offset, hash)) <==>
            hash != "" && exists t, u ::
              NumberThen(s, blocks, t) && NumberThen(t, offset, "sha256:" + u) && WordThen(u, hash)
  {
    if Scan(s) == Some((blocks, offset, hash)) {
      var t := Number(s).value.1;
      var u := Number(t).value.1;
      NumberIff(s, blocks, t);
      NumberIff(t, offset, u);
      assert u == "sha256:" + u[|HASH_TYPE|..];
      WordIff(u[|HASH_TYPE|..], hash);
    }
    if t, u :| NumberThen(s, blocks, t) && NumberThen(t, offset, "sha256:" + u) && hash != "" && WordThen(u, hash) {
      NumberIff(s, blocks, t);
      NumberIff(t, offset, "sha256:" + u);
      WordIff(u, hash);
      assert ("sha256:" + u)[|HASH_TYPE|..] == u;
    }
  }

  lemma HexIs(c: char)
    ensures IsHex(c) <==> c in "0123456789abcdefABCDEF"
  {
    var digits := "0123456789abcdefABCDEF";
    if '0' <= c <= '9' {
      assert digits[c as int - '0' as int] == c;
    } else if 'a' <= c <= 'f' {
      assert digits[c as int - 'a' as int + 10] == c;
    } else if 'A' <= c <= 'F' {
      assert digits[c as int - 'A' as int + 16] == c;
    }
  }

  lemma SpaceIs(c: char)
    ensures IsSpace(c) <==>
            c as int in {9, 10, 11, 12, 13, 32, 133, 160, 5760, 8192, 8193, 8194, 8195, 8196, 8197, 8198, 8199, 8200,
                         8201, 8202, 8232, 8233, 8239, 8287, 12288}
  {
  }

  /** What is accepted, with the product that the code computes in 64 bits as the true one. */
  lemma ValidateMeans(d: Info)
    ensures Validate(d) <==>
            && |d.hash| == 64 && (forall i :: 0 <= i < 64 ==> IsHex(d.hash[i]))
            && 1 <= d.blockNum < 0x1_0000_0000
            && 512 <= d.blockSize <= 524288 && 512 <= d.hashSize <= 524288
            && d.offset % d.hashSize == 0 && d.offset >= d.blockSize * d.blockNum
  {
    if d.blockSize <= 0x8_0000 && d.blockNum <= 0xFFFF_FFFF {
      NoOverflow(d.blockSize, d.blockNum);
    }
  }

  /** No size product that Validate computes overflows. */
  lemma NoOverflow(blockSize: nat, blocks: nat)
    requires blockSize <= 0x8_0000 && blocks <= 0xFFFF_FFFF
    ensures Mul64(blockSize, blocks) == blockSize * blocks
  {
    ProductBound(blockSize, blocks, 0x8_0000);
  }

  lemma ProductBound(a: nat, b: nat, max: nat)
    requires a <= max
    ensures 0 <= a * b <= max * b
  {
  }

  /** A written label gives back its numbers and its hash, or is refused, exactly by this condition. */
  lemma LabelReadBack(blocks: nat, offset: nat, hash: string)
    requires SpaceFree(hash) && blocks <= MAX_UINT64 && offset <= MAX_UINT64
    ensures Parse(Label(blocks, offset, hash)) ==
            if 1 <= blocks < 0x1_0000_0000 && offset % 4096 == 0 && offset >= 512 * blocks && ValidHash(hash)
            then Some(Info(hash, blocks, 512, 4096, offset)) else None
  {
    ScanReadBack(blocks, offset, hash);
    if blocks <= 0xFFFF_FFFF {
      NoOverflow(512, blocks);
    }
  }
}
