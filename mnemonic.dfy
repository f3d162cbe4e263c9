/** The entropy check of `generateMnemonic`; producing the words is the
    mnemonic library's job and is not part of this model. */
module Mnemonic {
  import opened Wrappers
  import opened Ledger

  /** The entropy used when the caller gives none. */
  const DefaultEntropy := 256

  /** `generateMnemonic(entropy)`'s check: an absent argument means
      `DefaultEntropy`; the entropy is accepted exactly when it is 128 or 256
      bits (12 or 24 words); anything else is the `TypeError` naming the value. */
  function CheckEntropy(entropy: Option<int>): (r: Result<int, Error>)
    ensures entropy == None ==> r == Success(DefaultEntropy)
    ensures entropy.Some? ==> (r.Success? <==> entropy.value == 128 || entropy.value == 256)
    ensures entropy.Some? && r.Success? ==> r.value == entropy.value
    ensures entropy.Some? && r.Failure? ==> r.error == IncorrectEntropy(entropy.value)
  {
    var bits := if entropy.Some? then entropy.value else DefaultEntropy;
    if bits != 256 && bits != 128 then Failure(IncorrectEntropy(bits)) else Success(bits)
  }
}
