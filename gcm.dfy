/**
 * How an AES-GCM cipher is obtained for given nonce and tag sizes. Ciphers are not modelled:
 * a successful selection names the library constructor that the code calls.
 */
module Gcm {
  import opened Wrappers
  import opened Bytes

  const StandardNonceSize: Int := 12
  const StandardTagSize: Int := 16

  /** The constructor of crypto/cipher that builds the AEAD. */
  datatype Constructor =
    | Standard                                         // cipher.NewGCM
    | WithNonceSize(nonceSize: Int)                    // cipher.NewGCMWithNonceSize
    | WithTagSize(tagSize: Int)                        // cipher.NewGCMWithTagSize
    | WithNonceAndTagSize(nonceSize: Int, tagSize: Int) // the block's own NewGCM(nonceSize, tagSize)

  datatype GcmError =
    | Unsupported(nonceSize: Int, tagSize: Int)  // both sizes custom
    | IncorrectTagSize                           // "cipher: incorrect tag size given to GCM"
    | ZeroNonce                                  // "cipher: the nonce can't have zero length, ..."

  /** The nonce and tag sizes of the AEAD a constructor builds. */
  function Sizes(c: Constructor): (Int, Int) {
    match c
    case Standard => (StandardNonceSize, StandardTagSize)
    case WithNonceSize(n) => (n, StandardTagSize)
    case WithTagSize(t) => (StandardNonceSize, t)
    case WithNonceAndTagSize(n, t) => (n, t)
  }

  /**
   * newGCMWithNonceOrTagSize: the standard constructor for the standard sizes, a constructor
   * that varies one size when the other is standard, and an error naming both sizes otherwise.
   */
  function NewGcmWithNonceOrTagSize(nonceSize: Int, tagSize: Int): (r: Result<Constructor, GcmError>)
    ensures r.Ok? ==> Sizes(r.value) == (nonceSize, tagSize)
    ensures r.Err? <==> nonceSize != StandardNonceSize && tagSize != StandardTagSize
    ensures r.Err? ==> r.error == Unsupported(nonceSize, tagSize)
    ensures r.Ok? ==> !r.value.WithNonceAndTagSize?
    ensures r == Ok(Standard) <==> nonceSize == StandardNonceSize && tagSize == StandardTagSize
  {
    if nonceSize == StandardNonceSize && tagSize == StandardTagSize then Ok(Standard)
    else if tagSize == StandardTagSize then Ok(WithNonceSize(nonceSize))
    else if nonceSize == StandardNonceSize then Ok(WithTagSize(tagSize))
    else Err(Unsupported(nonceSize, tagSize))
  }

  /**
   * The four cases of the table cover every pair of sizes, and exactly one of them applies:
   * the constructor is determined by which of the two sizes are standard.
   */
  lemma DecisionTable(nonceSize: Int, tagSize: Int)
    ensures var r := NewGcmWithNonceOrTagSize(nonceSize, tagSize);
      && (nonceSize == StandardNonceSize && tagSize == StandardTagSize ==> r == Ok(Standard))
      && (nonceSize != StandardNonceSize && tagSize == StandardTagSize ==> r == Ok(WithNonceSize(nonceSize)))
      && (nonceSize == StandardNonceSize && tagSize != StandardTagSize ==> r == Ok(WithTagSize(tagSize)))
      && (nonceSize != StandardNonceSize && tagSize != StandardTagSize ==> r == Err(Unsupported(nonceSize, tagSize)))
  {
  }

  /** A selection is a function of the sizes it was asked for: different sizes, different constructors. */
  lemma SelectionInjective(n1: Int, t1: Int, n2: Int, t2: Int)
    requires NewGcmWithNonceOrTagSize(n1, t1).Ok? && NewGcmWithNonceOrTagSize(n2, t2).Ok?
    requires NewGcmWithNonceOrTagSize(n1, t1) == NewGcmWithNonceOrTagSize(n2, t2)
    ensures n1 == n2 && t1 == t2
  {
    assert Sizes(NewGcmWithNonceOrTagSize(n1, t1).value) == (n1, t1);
  }
}
