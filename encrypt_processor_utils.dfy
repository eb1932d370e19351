/**
 * The encryption processor's configuration checks as the processor runs
 * them: each checker builds its list of results step by step, and the
 * dispatcher appends one checker's list to the caller's. Each method is
 * proved to produce what EncryptProcessorSpec defines.
 */
module EncryptProcessorUtils {
  import opened Wrappers
  import opened Text
  import opened Hex
  import opened SecurityUtil
  import opened ValidationRules
  import opened AlgorithmNames
  import opened EncryptProcessorSpec

  /** `getKDFsForKeyedCipher()`: NONE, then every strong KDF in enumeration order. */
  method GetKDFsForKeyedCipher(kdfs: seq<Kdf>) returns (names: seq<string>)
    ensures names == KeyedCipherKdfNames(kdfs)
  {
    names := [NoneKdfName];
    var i := 0;
    while i < |kdfs|
      invariant 0 <= i <= |kdfs|
      invariant names == [NoneKdfName] + KdfNames(kdfs[..i], IsStrongKdf)
    {
      assert kdfs[..i + 1][..i] == kdfs[..i];
      if kdfs[i].strong {
        names := names + [kdfs[i].name];
      }
      i := i + 1;
    }
    assert kdfs[..i] == kdfs;
  }

  /** `getKDFsForPBECipher(encryptionMethod)`: the weak KDFs but NONE, and the strong ones if the cipher takes them. */
  method GetKDFsForPBECipher(encryptionMethod: EncryptionMethod, kdfs: seq<Kdf>) returns (names: seq<string>)
    ensures names == PbeCipherKdfNames(kdfs, encryptionMethod.compatibleWithStrongKdfs)
  {
    ghost var keep := PbeCipherSelection(encryptionMethod.compatibleWithStrongKdfs);
    names := [];
    var i := 0;
    while i < |kdfs|
      invariant 0 <= i <= |kdfs|
      invariant names == KdfNames(kdfs[..i], keep)
    {
      var k := kdfs[i];
      assert kdfs[..i + 1][..i] == kdfs[..i];
      if !k.strong && k.name != NoneKdfName {
        names := names + [k.name];
      } else if encryptionMethod.compatibleWithStrongKdfs && k.strong {
        names := names + [k.name];
      }
      i := i + 1;
    }
    assert kdfs[..i] == kdfs;
  }

  /** `validatePGP(...)`: without a password, the keyring properties of the mode must be set and must work. */
  method ValidatePGP(encryptionMethod: EncryptionMethod, password: Option<string>, encrypt: bool,
                     publicKeyring: Option<string>, publicUserId: Option<string>,
                     privateKeyring: Option<string>, privateKeyringPassphrase: Option<string>, env: Environment)
    returns (validationResults: seq<ValidationResult>)
    ensures validationResults == PgpResults(encryptionMethod, password, encrypt, publicKeyring, publicUserId,
                                            privateKeyring, privateKeyringPassphrase, env)
  {
    ghost var table := PgpTable(encryptionMethod, password, encrypt, publicKeyring, publicUserId,
                                privateKeyring, privateKeyringPassphrase, env);
    validationResults := [];
    if password.None? {
      if encrypt {
        if publicKeyring.None? || publicUserId.None? {
          validationResults := validationResults + [ValidationResult(PublicKeyringIncomplete)];
          FiredOne(table, 0);
        } else {
          var lookup := env.publicKey(publicUserId.value, publicKeyring.value);
          match lookup
          case KeyFound =>
            FiredNothing(table);
          case KeyNotFound =>
            validationResults := validationResults + [ValidationResult(PublicKeyNotFound)];
            FiredOne(table, 1);
          case LookupThrew =>
            validationResults := validationResults + [ValidationResult(PublicKeyringUnreadable)];
            FiredOne(table, 2);
        }
      } else {
        if privateKeyring.None? || privateKeyringPassphrase.None? {
          validationResults := validationResults + [ValidationResult(PrivateKeyringIncomplete)];
          FiredOne(table, 3);
        } else {
          var providerName := encryptionMethod.provider;
          var check := env.keyring(providerName, privateKeyring.value, privateKeyringPassphrase.value);
          match check
          case KeyringOpened =>
            FiredNothing(table);
          case KeyringNotOpened =>
            validationResults := validationResults + [ValidationResult(PrivateKeyringNotOpened)];
            FiredOne(table, 4);
          case CheckThrew =>
            validationResults := validationResults + [ValidationResult(PrivateKeyringUnreadable)];
            FiredOne(table, 5);
        }
      }
    } else {
      FiredNothing(table);
    }
  }

  /**
   * `validatePBE(encryptionMethod, kdf, password, allowWeakCrypto)`: a
   * password is required; then its length, the algorithm's strength and
   * the KDF are checked.
   */
  method ValidatePBE(encryptionMethod: EncryptionMethod, kdf: Option<Kdf>, password: Option<string>,
                     allowWeakCrypto: bool, env: Environment)
    returns (validationResults: seq<ValidationResult>)
    ensures validationResults == PbeResults(encryptionMethod, kdf, password, allowWeakCrypto, env)
  {
    ghost var t := PbeTable(encryptionMethod, kdf, password, allowWeakCrypto, env);
    validationResults := [];
    var limitedStrengthCrypto := !env.supportsUnlimitedStrength;

    // A missing password stops the validation: the other checks need one
    if IsEmpty(password) {
      validationResults := validationResults + [ValidationResult(PasswordRequired)];
      FiredOne(t, 0);
      return;
    }

    var passwordBytesLength := Utf8Length(password.value);
    if !allowWeakCrypto {
      var minimumSafePasswordLength := env.minimumSafePasswordLength;
      if passwordBytesLength < minimumSafePasswordLength {
        validationResults := validationResults + [ValidationResult(PasswordTooShort)];
      }
    }
    assert validationResults == Report(t[0]) + Report(t[1]);

    if limitedStrengthCrypto {
      if encryptionMethod.unlimitedStrength {
        validationResults := validationResults + [ValidationResult(AlgorithmUnsupported)];
      }
      assert validationResults == Report(t[0]) + Report(t[1]) + Report(t[2]);
      var passwordLongerThanLimit := !env.passwordLengthValidOnLimitedStrength(passwordBytesLength, encryptionMethod);
      if passwordLongerThanLimit {
        validationResults := validationResults + [ValidationResult(PasswordTooLong)];
      }
    }
    assert validationResults == Report(t[0]) + Report(t[1]) + Report(t[2]) + Report(t[3]);

    var kdfsForPBECipher := GetKDFsForPBECipher(encryptionMethod, env.kdfs);
    if kdf.None? || kdf.value.name !in kdfsForPBECipher {
      validationResults := validationResults + [ValidationResult(KdfNotAllowed)];
    }
    assert validationResults == Report(t[0]) + Report(t[1]) + Report(t[2]) + Report(t[3]) + Report(t[4]);
    assert t == [t[0], t[1], t[2], t[3], t[4]];
    FiredFive(t[0], t[1], t[2], t[3], t[4]);
  }

  /**
   * `validateKeyed(encryptionMethod, kdf, keyHex)`: the algorithm's
   * strength, the raw key's presence, spelling and length, and the KDF.
   */
  method ValidateKeyed(encryptionMethod: EncryptionMethod, kdf: Option<Kdf>, keyHex: Option<string>, env: Environment)
    returns (validationResults: seq<ValidationResult>)
    ensures validationResults == KeyedResults(encryptionMethod, kdf, keyHex, env)
  {
    ghost var t := KeyedTable(encryptionMethod, kdf, keyHex, env);
    validationResults := [];
    var limitedStrengthCrypto := !env.supportsUnlimitedStrength;

    if limitedStrengthCrypto {
      if encryptionMethod.unlimitedStrength {
        validationResults := validationResults + [ValidationResult(AlgorithmUnsupported)];
      }
    }
    assert validationResults == Report(t[0]);
    // The ceiling is looked up under the property's name, as the processor does
    var allowedKeyLength := env.maxAllowedKeyLength(EncryptionAlgorithmName);

    if IsEmpty(keyHex) {
      validationResults := validationResults + [ValidationResult(RawKeyRequired)];
      assert validationResults == Report(t[0]) + Report(t[1]) + Report(t[2]) + Report(t[3]) + Report(t[4]);
    } else {
      var keyBytes: seq<byte> := [];
      var decoded := Decode(keyHex.value);
      match decoded {
        case Success(bytes) =>
          keyBytes := bytes;
        case Failure(_) =>
          validationResults := validationResults + [ValidationResult(RawKeyNotHex)];
      }
      assert validationResults == Report(t[0]) + Report(t[1]) + Report(t[2]);
      var keyBits := JavaInt(|keyBytes| * 8);
      assert keyBits == KeyBits(keyHex.value);
      if keyBits > allowedKeyLength {
        validationResults := validationResults + [ValidationResult(RawKeyTooLong)];
      }
      assert validationResults == Report(t[0]) + Report(t[1]) + Report(t[2]) + Report(t[3]);
      if !env.validKeyLength(keyBits, encryptionMethod.algorithm) {
        validationResults := validationResults + [ValidationResult(RawKeyInvalidLength)];
      }
      assert validationResults == Report(t[0]) + Report(t[1]) + Report(t[2]) + Report(t[3]) + Report(t[4]);
    }

    var kdfsForKeyedCipher := GetKDFsForKeyedCipher(env.kdfs);
    if kdf.None? || kdf.value.name !in kdfsForKeyedCipher {
      validationResults := validationResults + [ValidationResult(KdfNotAllowed)];
    }
    assert validationResults == Report(t[0]) + Report(t[1]) + Report(t[2]) + Report(t[3]) + Report(t[4]) + Report(t[5]);
    assert t == [t[0], t[1], t[2], t[3], t[4], t[5]];
    FiredSix(t[0], t[1], t[2], t[3], t[4], t[5]);
  }

  /** The caller's `List<ValidationResult>`, which the dispatcher appends to. */
  class ValidationResultList {
    var items: seq<ValidationResult>

    constructor ()
      ensures items == []
    {
      items := [];
    }

    /** `addAll(results)` */
    method AddAll(results: seq<ValidationResult>)
      modifies this
      ensures items == old(items) + results
    {
      items := items + results;
    }
  }

  /**
   * `standardValidate(context, validationResults)`: reads the configuration,
   * runs the checker its algorithm calls for and appends that checker's
   * results after the caller's; when reading the configuration throws,
   * nothing is appended.
   */
  method StandardValidate(ctx: map<Property, string>, env: Environment, validationResults: ValidationResultList)
    returns (outcome: Result<ValidationResultList, JavaException>)
    modifies validationResults
    ensures StandardValidation(ctx, env).Success? ==>
      && outcome == Success(validationResults)
      && validationResults.items == old(validationResults.items) + StandardValidation(ctx, env).value
    ensures StandardValidation(ctx, env).Failure? ==>
      && outcome == Failure(StandardValidation(ctx, env).error)
      && validationResults.items == old(validationResults.items)
  {
    var methodValue := PropertyValue(ctx, EncryptionAlgorithm);
    var encryptionMethod := MethodValueOf(env.methods, methodValue);
    if encryptionMethod.Failure? {
      return Failure(encryptionMethod.error);
    }
    var algorithm := encryptionMethod.value.algorithm;
    var password := PropertyValue(ctx, Password);
    var kdf := KdfValueOf(env.kdfs, PropertyValue(ctx, KeyDerivationFunction));
    if kdf.Failure? {
      return Failure(kdf.error);
    }
    var keyHex := PropertyValue(ctx, RawKeyHex);
    if IsPGPAlgorithm(algorithm) {
      var mode := PropertyValue(ctx, Mode);
      if mode.None? {
        return Failure(NullPointerException);
      }
      var encrypt := EqualsIgnoreCase(mode.value, EncryptMode);
      var publicKeyring := PropertyValue(ctx, PublicKeyring);
      var publicUserId := PropertyValue(ctx, PublicKeyUserId);
      var privateKeyring := PropertyValue(ctx, PrivateKeyring);
      var privateKeyringPassphrase := PropertyValue(ctx, PrivateKeyringPassphrase);
      var results := ValidatePGP(encryptionMethod.value, password, encrypt, publicKeyring, publicUserId,
                                 privateKeyring, privateKeyringPassphrase, env);
      validationResults.AddAll(results);
    } else if encryptionMethod.value.keyedCipher {
      var results := ValidateKeyed(encryptionMethod.value, Some(kdf.value), keyHex, env);
      validationResults.AddAll(results);
    } else {
      var allow := PropertyValue(ctx, AllowWeakCrypto);
      if allow.None? {
        return Failure(NullPointerException);
      }
      var allowWeakCrypto := EqualsIgnoreCase(allow.value, WeakCryptoAllowedName);
      var results := ValidatePBE(encryptionMethod.value, Some(kdf.value), password, allowWeakCrypto, env);
      validationResults.AddAll(results);
    }
    return Success(validationResults);
  }
}
