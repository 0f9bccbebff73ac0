/** Unsealing an entry as it streams past, and why it decides exactly as opening it in one piece does. */
module Unseal {
  import opened Bytes

  const TAG_LENGTH := 16

  /**
   * AES-256-GCM under one key and nonce, kept as parameters: decryption of a ciphertext, encryption
   * of a plaintext, and the tag of a ciphertext.
   */
  datatype Gcm = Gcm(decrypt: bytes -> bytes, encrypt: bytes -> bytes, tag: bytes -> bytes) {
    /** Decryption works byte by byte from the front: output never waits for later input. */
    ghost predicate Streams() {
      && (forall c :: |decrypt(c)| == |c|)
      && (forall c, d :: decrypt(c) <= decrypt(c + d))
    }

    ghost predicate Inverse() {
      && (forall p :: decrypt(encrypt(p)) == p)
      && (forall c :: |tag(c)| == 16)
    }

    /** A sealed entry as the writer stores it. */
    function Seal(plain: bytes): bytes {
      encrypt(plain) + tag(encrypt(plain))
    }
  }

  datatype UnsealError = Truncated | AuthenticationFailed

  /** A whole sealed entry: ciphertext, then the tag. */
  function OpenEntry(gcm: Gcm, input: bytes): Result<bytes, UnsealError> {
    if |input| < TAG_LENGTH then Err(Truncated)
    else
      var ciphertext := input[..|input| - TAG_LENGTH];
      if gcm.tag(ciphertext) == input[|input| - TAG_LENGTH..] then Ok(gcm.decrypt(ciphertext))
      else Err(AuthenticationFailed)
  }

  /** What arrived so far, split where the stream splits it. */
  function HeldBack(input: bytes): nat {
    if |input| <= TAG_LENGTH then 0 else |input| - TAG_LENGTH
  }

  /** What is buffered is the input from where the cipher has been fed; a short one leaves that where it was. */
  lemma TailAndChunk(input: bytes, chunk: bytes)
    ensures var all, from := input + chunk, HeldBack(input);
            && input[from..] + chunk == all[from..] && all[..from] == input[..from]
            && (|all[from..]| <= TAG_LENGTH ==> HeldBack(all) == from)
  {
  }

  /** A long one is cut sixteen bytes before its end, which is where the whole input is cut. */
  lemma BufferedSplits(input: bytes, chunk: bytes)
    requires |(input + chunk)[HeldBack(input)..]| > TAG_LENGTH
    ensures var all, from := input + chunk, HeldBack(input);
            var buffered := all[from..];
            && buffered[|buffered| - TAG_LENGTH..] == all[HeldBack(all)..]
            && input[..from] + buffered[..|buffered| - TAG_LENGTH] == all[..HeldBack(all)]
  {
  }

  class UnsealStream {
    const gcm: Gcm
    var tail: bytes
    var fed: bytes
    ghost var input: bytes

    /** The cipher has exactly the input before the last sixteen bytes; those are held back. */
    ghost predicate Valid()
      reads this
    {
      && fed == input[..HeldBack(input)]
      && tail == input[HeldBack(input)..]
    }

    constructor (gcm: Gcm)
      ensures Valid() && input == [] && this.gcm == gcm
    {
      this.gcm := gcm;
      tail, fed, input := [], [], [];
    }

    /** The decipher's update: it remembers what it was fed and returns what that newly decrypts to. */
    method Update(bytesIn: bytes) returns (output: bytes)
      requires gcm.Streams()
      modifies `fed
      ensures fed == old(fed) + bytesIn
      ensures gcm.decrypt(fed) == gcm.decrypt(old(fed)) + output
    {
      output := gcm.decrypt(fed + bytesIn)[|gcm.decrypt(fed)|..];
      fed := fed + bytesIn;
    }

    method Transform(chunk: bytes) returns (output: bytes)
      requires Valid() && gcm.Streams()
      modifies this
      ensures Valid() && input == old(input) + chunk
      ensures gcm.decrypt(fed) == gcm.decrypt(old(fed)) + output
    {
      input := input + chunk;
      var buffered := if |tail| > 0 then tail + chunk else chunk;
      TailAndChunk(old(input), chunk);
      assert buffered == input[HeldBack(old(input))..];
      if |buffered| <= TAG_LENGTH {
        tail := buffered;
        output := [];
        return;
      }
      var splitAt := |buffered| - TAG_LENGTH;
      BufferedSplits(old(input), chunk);
      tail := buffered[splitAt..];
      output := Update(buffered[..splitAt]);
    }

    method Flush() returns (verdict: Option<UnsealError>)
      requires Valid()
      ensures verdict == match OpenEntry(gcm, input) case Ok(_) => None case Err(error) => Some(error)
      ensures verdict.None? ==> fed == input[..|input| - TAG_LENGTH]
    {
      if |tail| != TAG_LENGTH {
        return Some(Truncated);
      }
      if gcm.tag(fed) != tail {
        return Some(AuthenticationFailed);
      }
      verdict := None;
    }
  }

  /**
   * Streaming refines buffering. For every division of an entry into chunks, empty ones included,
   * the stream accepts, calls it truncated, or rejects the tag exactly as opening the whole entry
   * does, and what it emitted is then the whole plaintext; before a rejection it never emits more
   * than the decryption of the bytes before the last sixteen.
   */
  method StreamEntry(gcm: Gcm, chunks: seq<bytes>) returns (output: bytes, verdict: Option<UnsealError>)
    requires gcm.Streams()
    ensures match OpenEntry(gcm, Concat(chunks))
            case Ok(plain) => verdict.None? && output == plain
            case Err(error) => verdict == Some(error)
    ensures output == gcm.decrypt(if |Concat(chunks)| <= 16 then [] else Concat(chunks)[..|Concat(chunks)| - 16])
  {
    var stream := new UnsealStream(gcm);
    output := [];
    for i := 0 to |chunks|
      invariant stream.Valid() && stream.gcm == gcm && fresh(stream)
      invariant stream.input == Concat(chunks[..i])
      invariant output == gcm.decrypt(stream.fed)
    {
      var piece := stream.Transform(chunks[i]);
      ConcatNext(chunks, i);
      output := output + piece;
    }
    assert chunks[..|chunks|] == chunks;
    verdict := stream.Flush();
  }

  /** Opening undoes sealing, and a sealed entry is opened only with its own tag. */
  lemma OpenUndoesSeal(gcm: Gcm, plain: bytes, input: bytes)
    requires gcm.Inverse()
    ensures OpenEntry(gcm, gcm.Seal(plain)) == Ok(plain)
    ensures |input| == |gcm.Seal(plain)| && gcm.encrypt(plain) <= input ==>
              (OpenEntry(gcm, input) == Ok(plain) <==> input == gcm.Seal(plain))
  {
    var sealedEntry := gcm.Seal(plain);
    assert sealedEntry[..|sealedEntry| - TAG_LENGTH] == gcm.encrypt(plain);
    assert sealedEntry[|sealedEntry| - TAG_LENGTH..] == gcm.tag(gcm.encrypt(plain));
    if |input| == |sealedEntry| && gcm.encrypt(plain) <= input {
      var cut := |input| - TAG_LENGTH;
      assert input[..cut] == gcm.encrypt(plain);
      assert input == input[..cut] + input[cut..];
    }
  }

  const NONCE_PREFIX_LENGTH := 4
  const ORDINAL_LENGTH := 8

  /** Four bytes of the archive's prefix, zero-filled where it is shorter, then the ordinal big-endian in eight. */
  function BuildNonce(prefix: bytes, ordinal: nat): (nonce: Option<bytes>)
    ensures nonce.Some? <==> ordinal < Pow(256, ORDINAL_LENGTH)
    ensures nonce.Some? ==> |nonce.value| == NONCE_PREFIX_LENGTH + ORDINAL_LENGTH
  {
    if ordinal >= Pow(256, ORDINAL_LENGTH) then None
    else
      var digits := Digits(256, ordinal, ORDINAL_LENGTH);
      Some((prefix + Zeros(NONCE_PREFIX_LENGTH))[..NONCE_PREFIX_LENGTH]
           + seq(ORDINAL_LENGTH, i requires 0 <= i < ORDINAL_LENGTH => digits[i] as u8))
  }

  /** Where the bytes are: the prefix in the first four of twelve, the ordinal in the other eight, lowest byte last. */
  lemma NonceLayout(prefix: bytes, ordinal: nat)
    ensures BuildNonce(prefix, ordinal).None? <==> ordinal >= 0x1_0000_0000_0000_0000
    ensures ordinal < 0x1_0000_0000_0000_0000 ==>
              var nonce := BuildNonce(prefix, ordinal).value;
              && |nonce| == 12
              && (forall i :: 0 <= i < 4 ==> nonce[i] == if i < |prefix| then prefix[i] else 0)
              && Positional(256, nonce[4..]) == ordinal && nonce[11] == ordinal % 256
  {
    assert Pow(256, 8) == 0x1_0000_0000_0000_0000;
    if ordinal < Pow(256, 8) {
      var nonce, digits := BuildNonce(prefix, ordinal).value, Digits(256, ordinal, 8);
      PositionalOfDigits(256, ordinal, 8);
      hide Digits, Pow, Positional;
      assert nonce[4..] == digits;
      LowestDigit(ordinal);
    }
  }

  lemma LowestDigit(n: nat)
    ensures Digits(256, n, 8)[7] == n % 256
  {
  }

  /** No two entries of one archive, and no entries of archives with different prefixes, share a nonce. */
  lemma NoncesDistinct(prefix: bytes, ordinal: nat, prefix': bytes, ordinal': nat)
    requires |prefix| == |prefix'| == NONCE_PREFIX_LENGTH
    requires BuildNonce(prefix, ordinal).Some?
    ensures BuildNonce(prefix, ordinal) == BuildNonce(prefix', ordinal') <==> prefix == prefix' && ordinal == ordinal'
  {
    hide Digits, Pow;
    if BuildNonce(prefix, ordinal) == BuildNonce(prefix', ordinal') {
      var nonce := BuildNonce(prefix, ordinal).value;
      assert nonce[..NONCE_PREFIX_LENGTH] == prefix && nonce[..NONCE_PREFIX_LENGTH] == prefix';
      var a, b := Digits(256, ordinal, ORDINAL_LENGTH), Digits(256, ordinal', ORDINAL_LENGTH);
      forall i | 0 <= i < ORDINAL_LENGTH ensures a[i] == b[i] {
        assert nonce[NONCE_PREFIX_LENGTH + i] == a[i] as u8 == b[i] as u8;
      }
      assert a == b;
      PositionalOfDigits(256, ordinal, ORDINAL_LENGTH);
      PositionalOfDigits(256, ordinal', ORDINAL_LENGTH);
    }
  }
}
