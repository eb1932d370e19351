/**
 * What the validator consults outside its own file: the enumerations
 * EncryptionMethod and KeyDerivationFunction, the JVM's cryptography
 * policy as PasswordBasedEncryptor reports it, the key and password length
 * tables of CipherUtility, and the two keyring checks of
 * OpenPGPKeyBasedEncryptor. None of these is defined in the modelled file,
 * so each enters the model as data or as a function-valued parameter.
 */
module SecurityUtil {
  import opened Wrappers

  /** One constant of KeyDerivationFunction: its `name()` and whether `isStrongKDF()` holds of it. */
  datatype Kdf = Kdf(name: string, strong: bool)

  /** `KeyDerivationFunction.NONE.name()` */
  const NoneKdfName: string := "NONE"

  /** One constant of EncryptionMethod, with the answers of its query methods. */
  datatype EncryptionMethod = EncryptionMethod(
    name: string,
    algorithm: string,
    provider: string,
    unlimitedStrength: bool,        // isUnlimitedStrength()
    keyedCipher: bool,              // isKeyedCipher()
    compatibleWithStrongKdfs: bool  // isCompatibleWithStrongKDFs()
  )

  /** Outcome of `OpenPGPKeyBasedEncryptor.getPublicKey(userId, keyring)`. */
  datatype PublicKeyLookup = KeyFound | KeyNotFound | LookupThrew

  /** Outcome of `OpenPGPKeyBasedEncryptor.validateKeyring(provider, keyring, passphrase)`. */
  datatype KeyringCheck = KeyringOpened | KeyringNotOpened | CheckThrew

  /** The exceptions the dispatcher can raise before it validates anything. */
  datatype JavaException = NullPointerException | IllegalArgumentException

  datatype Environment = Environment(
    kdfs: seq<Kdf>,                                                // KeyDerivationFunction.values()
    methods: seq<EncryptionMethod>,                                // EncryptionMethod.values()
    supportsUnlimitedStrength: bool,                               // PasswordBasedEncryptor.supportsUnlimitedStrength()
    minimumSafePasswordLength: int,                                // PasswordBasedEncryptor.getMinimumSafePasswordLength()
    maxAllowedKeyLength: string -> int,                            // PasswordBasedEncryptor.getMaxAllowedKeyLength(name)
    passwordLengthValidOnLimitedStrength: (int, EncryptionMethod) -> bool,
                                                                   // CipherUtility.passwordLengthIsValidForAlgorithmOnLimitedStrengthCrypto
    validKeyLength: (int, string) -> bool,                         // CipherUtility.isValidKeyLengthForAlgorithm(bits, algorithm)
    publicKey: (string, string) -> PublicKeyLookup,                // getPublicKey(userId, keyring)
    keyring: (string, string, string) -> KeyringCheck              // validateKeyring(provider, keyring, passphrase)
  )

  /** The Java `int` that the mathematical integer `x` wraps around to. */
  function JavaInt(x: int): (r: int)
    ensures -0x8000_0000 <= r < 0x8000_0000
    ensures (x - r) % 0x1_0000_0000 == 0
    ensures -0x8000_0000 <= x < 0x8000_0000 ==> r == x
  {
    var m := x % 0x1_0000_0000;
    if m < 0x8000_0000 then m else m - 0x1_0000_0000
  }

  /** `EncryptionMethod.valueOf(name)`, read from the enumeration's constants. */
  function MethodValueOf(methods: seq<EncryptionMethod>, name: Option<string>): (r: Result<EncryptionMethod, JavaException>)
    ensures r.Success? ==> name.Some? && r.value in methods && r.value.name == name.value
    ensures r.Failure? <==> name.None? || forall m | m in methods :: m.name != name.value
    ensures r.Failure? ==> r.error == if name.None? then NullPointerException else IllegalArgumentException
  {
    if name.None? then Failure(NullPointerException)
    else match FindMethod(methods, name.value)
      case Some(m) => Success(m)
      case None => Failure(IllegalArgumentException)
  }

  function FindMethod(methods: seq<EncryptionMethod>, name: string): (r: Option<EncryptionMethod>)
    ensures r.Some? ==> r.value in methods && r.value.name == name
    ensures r.None? <==> forall m | m in methods :: m.name != name
  {
    if methods == [] then None
    else if methods[0].name == name then Some(methods[0])
    else FindMethod(methods[1..], name)
  }

  /** `KeyDerivationFunction.valueOf(name)`, read from the enumeration's constants. */
  function KdfValueOf(kdfs: seq<Kdf>, name: Option<string>): (r: Result<Kdf, JavaException>)
    ensures r.Success? ==> name.Some? && r.value in kdfs && r.value.name == name.value
    ensures r.Failure? <==> name.None? || forall k | k in kdfs :: k.name != name.value
    ensures r.Failure? ==> r.error == if name.None? then NullPointerException else IllegalArgumentException
  {
    if name.None? then Failure(NullPointerException)
    else match FindKdf(kdfs, name.value)
      case Some(k) => Success(k)
      case None => Failure(IllegalArgumentException)
  }

  function FindKdf(kdfs: seq<Kdf>, name: string): (r: Option<Kdf>)
    ensures r.Some? ==> r.value in kdfs && r.value.name == name
    ensures r.None? <==> forall k | k in kdfs :: k.name != name
  {
    if kdfs == [] then None
    else if kdfs[0].name == name then Some(kdfs[0])
    else FindKdf(kdfs[1..], name)
  }
}
