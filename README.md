# Configuration validation of NiFi's EncryptContent processor

This project models `EncryptProcessorUtils`, the helper class that decides
whether a configuration of NiFi's encryption processor is usable. It does
not model the encryption itself.

The configuration names an encryption method, and the validator dispatches
on it to one of three checkers:

- **OpenPGP methods** are those whose algorithm name starts with `PGP`.
  Without a password, the keyring of the chosen mode must be configured and
  must work. For encryption that is the public keyring and user id. For
  decryption it is the private keyring and passphrase.
- **Keyed ciphers** take a raw hexadecimal key. The checker looks at:
  - the cipher's strength on a JVM with limited-strength cryptography;
  - whether the key is present and is hexadecimal;
  - the key's length in bits, against the JVM's ceiling and against the
    algorithm's valid lengths;
  - the key derivation function (KDF). It must be `NONE` or a strong one.
- **Password-based ciphers** require a non-empty password. The checker then
  looks at:
  - a minimum length in UTF-8 bytes, unless weak crypto is explicitly
    "allowed";
  - the cipher's strength and the password's maximum length, on a
    limited-strength JVM only;
  - the KDF. It must be a weak one other than `NONE`, or a strong one when
    the cipher is compatible with strong KDFs.

One result is reported per failing check, in the order the source checks
them. No failing check stops a later one, except that the password-based
checker returns at once when the password is missing. Some checks are nested
under others: the keyed checker tests the key's spelling and length only
when there is a key, and the OpenPGP checker tests only the keyring of its
mode, and nothing when a password is set. The dispatcher
appends the chosen checker's results to the caller's list. Reading the
configuration can throw before anything is appended:

- an unset value, or an unknown name, for the encryption method or the KDF;
- an unset mode for OpenPGP;
- an unset weak-crypto switch for password-based ciphers.

## Structure

- `wrappers.dfy` (`Wrappers`): `Option` and `Result`.
- `text.dfy` (`Text`): the string operations the validator uses:
  - `startsWith` and `endsWith`;
  - `StringUtils.isEmpty`;
  - ASCII `equalsIgnoreCase`;
  - the length of a string's UTF-8 encoding.
- `hex.dfy` (`Hex`): hexadecimal decoding as `Hex.decodeHex` performs it,
  and a lower-case encoder whose round trips are proved.
- `security_util.dfy` (`SecurityUtil`): the validator's collaborators that
  the modelled file does not define.
  - The enumerations `EncryptionMethod` and `KeyDerivationFunction` are data:
    each constant carries the answers of its query methods.
  - The JVM policy, the `CipherUtility` tables and the two keyring checks
    are fields of an `Environment`.
  - It also holds Java `int` wrap-around and `valueOf`.
- `validation_rules.dfy` (`ValidationRules`):
  - the properties the validator reads;
  - the fifteen kinds of validation result, each with the property it is
    reported against;
  - rule tables. A table is a list of (kind, condition) pairs, and `Fired`
    lists the results of the rules whose condition holds, in table order.
- `algorithm_names.dfy` (`AlgorithmNames`): `isPGPAlgorithm` and
  `isPGPArmoredAlgorithm`.
- `encrypt_processor_spec.dfy` (`EncryptProcessorSpec`): the reference
  definitions and the lemmas about them:
  - the KDF allow-lists;
  - each checker's rule table;
  - the dispatcher `StandardValidation`, which yields the appended results
    or the exception thrown.
- `encrypt_processor_utils.dfy` (`EncryptProcessorUtils`): the operations as
  the source writes them. They are loops over the KDF enumeration, checkers
  that grow a result list step by step, and a dispatcher that appends to the
  caller's list object. Each is proved equal to its reference definition.

The key-length ceiling for raw keys is requested with the text
`"encryption-algorithm"`, the name of the algorithm property, not the
algorithm itself. The model keeps that, as the source has it (source line
297).

## Model

| member | source | states |
|---|---|---|
| Text.StartsWith | nifi-nar-bundles/nifi-standard-bundle/nifi-standard-processors/src/main/java/org/apache/nifi/processors/standard/util/crypto/EncryptProcessorUtils.java:134 | `startsWith` holds exactly when the string is the prefix followed by the rest |
| Text.EndsWith | nifi-nar-bundles/nifi-standard-bundle/nifi-standard-processors/src/main/java/org/apache/nifi/processors/standard/util/crypto/EncryptProcessorUtils.java:138 | `endsWith` holds exactly when the string is something followed by the suffix |
| AlgorithmNames.IsPGPAlgorithm | nifi-nar-bundles/nifi-standard-bundle/nifi-standard-processors/src/main/java/org/apache/nifi/processors/standard/util/crypto/EncryptProcessorUtils.java:133-135 | an algorithm is OpenPGP exactly when its name has at least three characters and they are "P", "G", "P" |
| AlgorithmNames.PGPAlgorithmShape | nifi-nar-bundles/nifi-standard-bundle/nifi-standard-processors/src/main/java/org/apache/nifi/processors/standard/util/crypto/EncryptProcessorUtils.java:133-135 | an algorithm is OpenPGP exactly when its name is "PGP" followed by anything |
| AlgorithmNames.IsPGPArmoredAlgorithm | nifi-nar-bundles/nifi-standard-bundle/nifi-standard-processors/src/main/java/org/apache/nifi/processors/standard/util/crypto/EncryptProcessorUtils.java:137-139 | an armored algorithm is an OpenPGP algorithm |
| AlgorithmNames.PGPArmoredAlgorithmShape | nifi-nar-bundles/nifi-standard-bundle/nifi-standard-processors/src/main/java/org/apache/nifi/processors/standard/util/crypto/EncryptProcessorUtils.java:137-139 | an algorithm is armored exactly when its name is "PGP", then anything, then "ASCII-ARMOR"; the two affixes cannot overlap |
| Text.Utf8Length | nifi-nar-bundles/nifi-standard-bundle/nifi-standard-processors/src/main/java/org/apache/nifi/processors/standard/util/crypto/EncryptProcessorUtils.java:245 | a password's UTF-8 byte length is between one and four bytes per character |
| Text.AsciiUtf8Length | nifi-nar-bundles/nifi-standard-bundle/nifi-standard-processors/src/main/java/org/apache/nifi/processors/standard/util/crypto/EncryptProcessorUtils.java:245 | an ASCII password takes exactly one byte per character |
| Text.IsEmpty | nifi-nar-bundles/nifi-standard-bundle/nifi-standard-processors/src/main/java/org/apache/nifi/processors/standard/util/crypto/EncryptProcessorUtils.java:238 | `StringUtils.isEmpty` holds exactly for null and the empty string (also used at line 299) |
| Text.EqualsIgnoreCase | nifi-nar-bundles/nifi-standard-bundle/nifi-standard-processors/src/main/java/org/apache/nifi/processors/standard/util/crypto/EncryptProcessorUtils.java:367 | `equalsIgnoreCase` holds of equal strings, and only of strings of equal length (also used at line 377) |
| Hex.Decode | nifi-nar-bundles/nifi-standard-bundle/nifi-standard-processors/src/main/java/org/apache/nifi/processors/standard/util/crypto/EncryptProcessorUtils.java:303-309 | decoding succeeds exactly on an even number of hexadecimal digits, giving one byte per pair; an odd length and the first illegal character are the two errors |
| Hex.DecodeEncode | nifi-nar-bundles/nifi-standard-bundle/nifi-standard-processors/src/main/java/org/apache/nifi/processors/standard/util/crypto/EncryptProcessorUtils.java:305 | decoding the hexadecimal spelling of any bytes gives those bytes back |
| Hex.EncodeDecode | nifi-nar-bundles/nifi-standard-bundle/nifi-standard-processors/src/main/java/org/apache/nifi/processors/standard/util/crypto/EncryptProcessorUtils.java:305 | re-spelling a decoded key gives the key in lower case |
| SecurityUtil.JavaInt | nifi-nar-bundles/nifi-standard-bundle/nifi-standard-processors/src/main/java/org/apache/nifi/processors/standard/util/crypto/EncryptProcessorUtils.java:310-315 | `keyBytes.length * 8` is an `int`: in range, congruent to the true product modulo 2^32, and equal to it when it fits |
| SecurityUtil.MethodValueOf | nifi-nar-bundles/nifi-standard-bundle/nifi-standard-processors/src/main/java/org/apache/nifi/processors/standard/util/crypto/EncryptProcessorUtils.java:360-361 | `EncryptionMethod.valueOf` returns a constant of that name, throws NullPointerException for null, and throws IllegalArgumentException exactly when no constant has the name |
| SecurityUtil.KdfValueOf | nifi-nar-bundles/nifi-standard-bundle/nifi-standard-processors/src/main/java/org/apache/nifi/processors/standard/util/crypto/EncryptProcessorUtils.java:364 | `KeyDerivationFunction.valueOf` likewise |
| EncryptProcessorSpec.KeyedCipherKdfNames | nifi-nar-bundles/nifi-standard-bundle/nifi-standard-processors/src/main/java/org/apache/nifi/processors/standard/util/crypto/EncryptProcessorUtils.java:334-343 | the keyed allow-list starts with NONE, and every later name is a strong constant's |
| EncryptProcessorSpec.PbeCipherKdfNames | nifi-nar-bundles/nifi-standard-bundle/nifi-standard-processors/src/main/java/org/apache/nifi/processors/standard/util/crypto/EncryptProcessorUtils.java:345-357 | every name on the password-based allow-list is that of a constant the cipher accepts |
| EncryptProcessorSpec.KdfNamesMembership | nifi-nar-bundles/nifi-standard-bundle/nifi-standard-processors/src/main/java/org/apache/nifi/processors/standard/util/crypto/EncryptProcessorUtils.java:337-341 | a name appears in an allow-list exactly when a selected enumeration constant carries it |
| EncryptProcessorSpec.KeyedCipherKdfs | nifi-nar-bundles/nifi-standard-bundle/nifi-standard-processors/src/main/java/org/apache/nifi/processors/standard/util/crypto/EncryptProcessorUtils.java:336-341 | after NONE, the keyed allow-list names exactly the strong KDFs |
| EncryptProcessorSpec.PbeCipherKdfs | nifi-nar-bundles/nifi-standard-bundle/nifi-standard-processors/src/main/java/org/apache/nifi/processors/standard/util/crypto/EncryptProcessorUtils.java:345-357 | the password-based allow-list has every weak KDF but NONE, and has the strong KDFs exactly when the cipher is compatible with them; NONE is absent |
| EncryptProcessorUtils.GetKDFsForKeyedCipher | nifi-nar-bundles/nifi-standard-bundle/nifi-standard-processors/src/main/java/org/apache/nifi/processors/standard/util/crypto/EncryptProcessorUtils.java:334-343 | the loop builds exactly the keyed allow-list (NONE, then the strong KDFs in enumeration order) |
| EncryptProcessorUtils.GetKDFsForPBECipher | nifi-nar-bundles/nifi-standard-bundle/nifi-standard-processors/src/main/java/org/apache/nifi/processors/standard/util/crypto/EncryptProcessorUtils.java:345-357 | the loop builds exactly the password-based allow-list, in enumeration order |
| EncryptProcessorSpec.PgpResults | nifi-nar-bundles/nifi-standard-bundle/nifi-standard-processors/src/main/java/org/apache/nifi/processors/standard/util/crypto/EncryptProcessorUtils.java:175-231 | the results of `validatePGP` are the OpenPGP rules that fire, in order; every one is one of the six keyring results |
| EncryptProcessorSpec.PgpWithPassword | nifi-nar-bundles/nifi-standard-bundle/nifi-standard-processors/src/main/java/org/apache/nifi/processors/standard/util/crypto/EncryptProcessorUtils.java:179-230 | with a password, OpenPGP validation reports nothing |
| EncryptProcessorSpec.PgpWithoutPassword | nifi-nar-bundles/nifi-standard-bundle/nifi-standard-processors/src/main/java/org/apache/nifi/processors/standard/util/crypto/EncryptProcessorUtils.java:179-227 | without a password there is at most one result. It is about the public keyring when encrypting and the private keyring when decrypting. There is none exactly when both properties of the mode are set and the key lookup or keyring check succeeds |
| EncryptProcessorUtils.ValidatePGP | nifi-nar-bundles/nifi-standard-bundle/nifi-standard-processors/src/main/java/org/apache/nifi/processors/standard/util/crypto/EncryptProcessorUtils.java:175-231 | the branching method returns exactly the OpenPGP rule table's results, a thrown lookup or check included |
| EncryptProcessorSpec.PbeResults | nifi-nar-bundles/nifi-standard-bundle/nifi-standard-processors/src/main/java/org/apache/nifi/processors/standard/util/crypto/EncryptProcessorUtils.java:233-284 | the results of `validatePBE` are the password-based rules that fire, in order; every one is one of its five checks' |
| EncryptProcessorSpec.PbeWithoutPassword | nifi-nar-bundles/nifi-standard-bundle/nifi-standard-processors/src/main/java/org/apache/nifi/processors/standard/util/crypto/EncryptProcessorUtils.java:237-242 | a null or empty password gives the single result "password required" and stops validation |
| EncryptProcessorSpec.PbeWithPassword | nifi-nar-bundles/nifi-standard-bundle/nifi-standard-processors/src/main/java/org/apache/nifi/processors/standard/util/crypto/EncryptProcessorUtils.java:244-281 | with a password, each check reports exactly when its condition holds: "too short" only when weak crypto is not allowed; algorithm and "too long" only on a limited-strength JVM; the KDF when it is missing or not allowed |
| EncryptProcessorSpec.PbeResultsInOrder | nifi-nar-bundles/nifi-standard-bundle/nifi-standard-processors/src/main/java/org/apache/nifi/processors/standard/util/crypto/EncryptProcessorUtils.java:244-283 | the password-based results are "too short", algorithm, "too long", KDF, each present exactly when its condition holds, in this order |
| EncryptProcessorUtils.ValidatePBE | nifi-nar-bundles/nifi-standard-bundle/nifi-standard-processors/src/main/java/org/apache/nifi/processors/standard/util/crypto/EncryptProcessorUtils.java:233-284 | the step-by-step method, with its early return, returns exactly the password-based rule table's results |
| EncryptProcessorSpec.KeyBits | nifi-nar-bundles/nifi-standard-bundle/nifi-standard-processors/src/main/java/org/apache/nifi/processors/standard/util/crypto/EncryptProcessorUtils.java:303-315 | the key's bit count is a Java `int`, zero for a key that is not hexadecimal, and congruent modulo 2^32 to eight bits per decoded byte |
| EncryptProcessorSpec.KeyBitsOfValidKey | nifi-nar-bundles/nifi-standard-bundle/nifi-standard-processors/src/main/java/org/apache/nifi/processors/standard/util/crypto/EncryptProcessorUtils.java:303-310 | a valid key of fewer than 2^29 digits is measured at eight bits per byte, four per digit, without wrap-around |
| EncryptProcessorSpec.KeyedResults | nifi-nar-bundles/nifi-standard-bundle/nifi-standard-processors/src/main/java/org/apache/nifi/processors/standard/util/crypto/EncryptProcessorUtils.java:286-332 | the results of `validateKeyed` are the keyed rules that fire, in order; every one is one of its six checks' |
| EncryptProcessorSpec.KeyedResultsWithoutKeyInOrder | nifi-nar-bundles/nifi-standard-bundle/nifi-standard-processors/src/main/java/org/apache/nifi/processors/standard/util/crypto/EncryptProcessorUtils.java:288-329 | without a key the keyed results are the algorithm result (when it fires), "raw key required", then the KDF result (when it fires) |
| EncryptProcessorSpec.KeyedResultsWithKeyInOrder | nifi-nar-bundles/nifi-standard-bundle/nifi-standard-processors/src/main/java/org/apache/nifi/processors/standard/util/crypto/EncryptProcessorUtils.java:288-329 | with a key the keyed results are algorithm, not hexadecimal, too long, invalid length and KDF. Each is present exactly when its condition holds, and they come in this order |
| EncryptProcessorSpec.KeyedAlgorithmAndKdf | nifi-nar-bundles/nifi-standard-bundle/nifi-standard-processors/src/main/java/org/apache/nifi/processors/standard/util/crypto/EncryptProcessorUtils.java:290-329 | the algorithm result appears exactly for an unlimited-strength cipher on a limited JVM; the KDF result exactly when the KDF is missing or not keyed-allowed |
| EncryptProcessorSpec.KeyedWithoutKey | nifi-nar-bundles/nifi-standard-bundle/nifi-standard-processors/src/main/java/org/apache/nifi/processors/standard/util/crypto/EncryptProcessorUtils.java:299-301 | without a key, "raw key required" is the only result about the key |
| EncryptProcessorSpec.KeyedWithInvalidHex | nifi-nar-bundles/nifi-standard-bundle/nifi-standard-processors/src/main/java/org/apache/nifi/processors/standard/util/crypto/EncryptProcessorUtils.java:302-319 | a key that is not hexadecimal is reported. The length checks then see zero bits, the empty array the source keeps |
| EncryptProcessorSpec.KeyedWithValidHex | nifi-nar-bundles/nifi-standard-bundle/nifi-standard-processors/src/main/java/org/apache/nifi/processors/standard/util/crypto/EncryptProcessorUtils.java:302-319 | a hexadecimal key of fewer than 2^29 digits is checked at eight bits per byte against the ceiling and the algorithm's valid lengths |
| EncryptProcessorUtils.ValidateKeyed | nifi-nar-bundles/nifi-standard-bundle/nifi-standard-processors/src/main/java/org/apache/nifi/processors/standard/util/crypto/EncryptProcessorUtils.java:286-332 | the step-by-step method returns exactly the keyed rule table's results |
| EncryptProcessorSpec.StandardValidation | nifi-nar-bundles/nifi-standard-bundle/nifi-standard-processors/src/main/java/org/apache/nifi/processors/standard/util/crypto/EncryptProcessorUtils.java:359-382 | the dispatcher's outcome: an unset algorithm throws NullPointerException and an unknown one IllegalArgumentException (line 361); success needs both the algorithm and the KDF to be set |
| EncryptProcessorSpec.SelectedMethod | nifi-nar-bundles/nifi-standard-bundle/nifi-standard-processors/src/main/java/org/apache/nifi/processors/standard/util/crypto/EncryptProcessorUtils.java:360-361 | with distinct constant names, the configured name resolves to the constant that carries it |
| EncryptProcessorSpec.StandardValidationThrows | nifi-nar-bundles/nifi-standard-bundle/nifi-standard-processors/src/main/java/org/apache/nifi/processors/standard/util/crypto/EncryptProcessorUtils.java:359-382 | for a known method, validation throws exactly when the KDF is unset or unknown, or when the mode (OpenPGP) or the weak-crypto switch (password-based) is unset |
| EncryptProcessorSpec.StandardValidationPgp | nifi-nar-bundles/nifi-standard-bundle/nifi-standard-processors/src/main/java/org/apache/nifi/processors/standard/util/crypto/EncryptProcessorUtils.java:366-372 | an OpenPGP method with a mode set returns exactly `validatePGP`'s results for the configured properties, and every one is about a keyring |
| EncryptProcessorSpec.StandardValidationPgpMode | nifi-nar-bundles/nifi-standard-bundle/nifi-standard-processors/src/main/java/org/apache/nifi/processors/standard/util/crypto/EncryptProcessorUtils.java:366-372 | for OpenPGP without a password: at most one result; on the public keyring when the mode is "Encrypt" in any case, otherwise on the private keyring |
| EncryptProcessorSpec.StandardValidationKeyed | nifi-nar-bundles/nifi-standard-bundle/nifi-standard-processors/src/main/java/org/apache/nifi/processors/standard/util/crypto/EncryptProcessorUtils.java:373-375 | a keyed cipher returns exactly `validateKeyed`'s results for the resolved KDF and the raw key, and each is about the algorithm, the raw key or the KDF |
| EncryptProcessorSpec.StandardValidationPbe | nifi-nar-bundles/nifi-standard-bundle/nifi-standard-processors/src/main/java/org/apache/nifi/processors/standard/util/crypto/EncryptProcessorUtils.java:376-378 | a password-based cipher with the weak-crypto switch set returns exactly `validatePBE`'s results for the resolved KDF, the password and the switch, and each is about the password, the algorithm or the KDF |
| EncryptProcessorSpec.StandardValidationWeakCrypto | nifi-nar-bundles/nifi-standard-bundle/nifi-standard-processors/src/main/java/org/apache/nifi/processors/standard/util/crypto/EncryptProcessorUtils.java:377-378 | for a password-based cipher with a password, "too short" is reported exactly when the switch is not "allowed" (in any case) and the password is under the minimum |
| EncryptProcessorUtils.ValidationResultList.AddAll | nifi-nar-bundles/nifi-standard-bundle/nifi-standard-processors/src/main/java/org/apache/nifi/processors/standard/util/crypto/EncryptProcessorUtils.java:372 | `addAll` appends the results after the list's existing items |
| EncryptProcessorUtils.StandardValidate | nifi-nar-bundles/nifi-standard-bundle/nifi-standard-processors/src/main/java/org/apache/nifi/processors/standard/util/crypto/EncryptProcessorUtils.java:359-382 | on success it returns the caller's list, with the dispatcher's results appended after the old items; when reading the configuration throws, it reports that exception and leaves the list unchanged |

## Left out

- The property descriptors and the `AllowableValue` builders (source lines 55-131 and 142-173): these are static configuration with no logic to verify. The model uses only their names.
- The `Encryptor` interface (source lines 384-388): it is a declaration, not something the validator does.
- The explanation text of each validation result, and the `valid` flag. It is always false. A result is its kind, and the kind determines its subject.
- `OpenPGPKeyBasedEncryptor.getPublicKey` and `validateKeyring`: they read keyrings from files through Bouncy Castle. They enter as `Environment` fields that answer "found", "missing" or "threw" (respectively "opened", "not opened" or "threw").
- `PasswordBasedEncryptor` and `CipherUtility` are not part of this model. The JVM's unlimited-strength policy, the minimum safe password length, the key-length ceiling and the password and key length tables are `Environment` parameters.
- `ValidationContext` is a map from property to configured value; an absent key is a null value. Default values and expression-language evaluation happen in the framework before validation and are not modelled.
- `Hex.Decode`: accepts the ASCII digits and letters only. `Character.digit`, which commons-codec uses, also accepts other Unicode decimal digits and full-width letters.
- `Text.EqualsIgnoreCase`: folds ASCII letters only. It is only applied to the words "Encrypt" and "allowed", for which Java's Unicode folding gives the same answer.
- `Text.Utf8Length`: counts whole Unicode scalar values. A Java string holding an unpaired surrogate, which Java encodes as "?", cannot be written as a Dafny string.
- `EncryptProcessorSpec.PbeCipherAllows` tests "is NONE" by comparing the constant's name with "NONE"; source line 349 compares the constant itself. The two agree for an enumeration.
- `Text.Utf8Length`: the password's byte length is an unbounded integer. In the source, `getBytes` cannot produce more than 2^31-1 bytes and throws for a longer encoding, which a string of up to 2^31-1 UTF-16 units can need (up to three bytes per unit). The model does not capture that throw.
