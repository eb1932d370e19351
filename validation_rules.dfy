/**
 * Validation results as the encryption processor reports them: each names
 * the property it is about (its subject) and why it failed (its kind; the
 * explanation text is not modelled). A checker is described as an ordered
 * table of rules, each reporting its own result when its condition holds;
 * `Fired` is the list such a table produces.
 */
module ValidationRules {

  /** The processor's properties that the validator reads or reports against. */
  datatype Property =
    | Mode | AllowWeakCrypto | PublicKeyring | PublicKeyUserId | PrivateKeyring
    | PrivateKeyringPassphrase | RawKeyHex | Password | EncryptionAlgorithm | KeyDerivationFunction

  const ModeName: string := "mode"
  const AllowWeakCryptoName: string := "allow-weak-crypto"
  const PublicKeyringName: string := "public-keyring-file"
  const PublicKeyUserIdName: string := "public-key-user-id"
  const PrivateKeyringName: string := "private-keyring-file"
  const PrivateKeyringPassphraseName: string := "private-keyring-passphrase"
  const RawKeyHexName: string := "raw-key-hex"
  const PasswordName: string := "password"
  const EncryptionAlgorithmName: string := "encryption-algorithm"
  const KeyDerivationFunctionName: string := "key-derivation-function"

  /** The name of a property's descriptor, under which results about it are reported. */
  function PropertyName(p: Property): string {
    match p
    case Mode => ModeName
    case AllowWeakCrypto => AllowWeakCryptoName
    case PublicKeyring => PublicKeyringName
    case PublicKeyUserId => PublicKeyUserIdName
    case PrivateKeyring => PrivateKeyringName
    case PrivateKeyringPassphrase => PrivateKeyringPassphraseName
    case RawKeyHex => RawKeyHexName
    case Password => PasswordName
    case EncryptionAlgorithm => EncryptionAlgorithmName
    case KeyDerivationFunction => KeyDerivationFunctionName
  }

  datatype Kind =
    | PublicKeyringIncomplete    // encrypting without a password, keyring or user id missing
    | PublicKeyNotFound          // the public keyring holds no key for the user id
    | PublicKeyringUnreadable    // looking the key up threw
    | PrivateKeyringIncomplete   // decrypting without a password, keyring or passphrase missing
    | PrivateKeyringNotOpened    // the passphrase does not open the private keyring
    | PrivateKeyringUnreadable   // checking the keyring threw
    | PasswordRequired           // password-based cipher without a password
    | PasswordTooShort           // shorter than the minimum safe length
    | AlgorithmUnsupported       // unlimited-strength cipher on a limited-strength JVM
    | PasswordTooLong            // longer than the limited-strength JVM allows
    | RawKeyRequired             // keyed cipher without a key
    | RawKeyNotHex               // the key is not a hexadecimal string
    | RawKeyTooLong              // more key bits than the JVM allows
    | RawKeyInvalidLength        // a key length the algorithm does not accept
    | KdfNotAllowed              // no key derivation function, or one not allowed for the cipher

  /** A validation result; the property it is reported against follows from its kind. */
  datatype ValidationResult = ValidationResult(kind: Kind) {
    function subject(): Property {
      match kind
      case PublicKeyringIncomplete | PublicKeyNotFound | PublicKeyringUnreadable => PublicKeyring
      case PrivateKeyringIncomplete | PrivateKeyringNotOpened | PrivateKeyringUnreadable => PrivateKeyring
      case PasswordRequired | PasswordTooShort | PasswordTooLong => Password
      case AlgorithmUnsupported => EncryptionAlgorithm
      case RawKeyRequired | RawKeyNotHex | RawKeyTooLong | RawKeyInvalidLength => RawKeyHex
      case KdfNotAllowed => KeyDerivationFunction
    }
  }

  /** One row of a checker's rule table: the result it reports, and whether its condition holds. */
  datatype Rule = Rule(kind: Kind, fires: bool)

  /** What one rule contributes: its result when it fires, nothing otherwise. */
  function Report(rule: Rule): seq<ValidationResult> {
    if rule.fires then [ValidationResult(rule.kind)] else []
  }

  /** The results of the rules that fire, in table order; no rule stops another. */
  function Fired(table: seq<Rule>): seq<ValidationResult> {
    if table == [] then [] else Fired(table[..|table| - 1]) + Report(table[|table| - 1])
  }

  /** Running one more rule appends its result, if it fires, after those of the rules before it. */
  lemma FiredAppend(table: seq<Rule>, rule: Rule)
    ensures Fired(table + [rule]) == Fired(table) + Report(rule)
  {
    assert (table + [rule])[..|table|] == table;
  }

  /** A table of five rules reports rule by rule. */
  lemma FiredFive(r0: Rule, r1: Rule, r2: Rule, r3: Rule, r4: Rule)
    ensures Fired([r0, r1, r2, r3, r4]) == Report(r0) + Report(r1) + Report(r2) + Report(r3) + Report(r4)
  {
    assert [r0] == [] + [r0];
    FiredAppend([], r0);
    assert [r0, r1] == [r0] + [r1];
    FiredAppend([r0], r1);
    assert [r0, r1, r2] == [r0, r1] + [r2];
    FiredAppend([r0, r1], r2);
    assert Fired([r0, r1, r2]) == Report(r0) + Report(r1) + Report(r2);
    assert [r0, r1, r2, r3] == [r0, r1, r2] + [r3];
    FiredAppend([r0, r1, r2], r3);
    assert [r0, r1, r2, r3, r4] == [r0, r1, r2, r3] + [r4];
    FiredAppend([r0, r1, r2, r3], r4);
  }

  /** A table of six rules reports rule by rule. */
  lemma FiredSix(r0: Rule, r1: Rule, r2: Rule, r3: Rule, r4: Rule, r5: Rule)
    ensures Fired([r0, r1, r2, r3, r4, r5]) == Report(r0) + Report(r1) + Report(r2) + Report(r3) + Report(r4) + Report(r5)
  {
    FiredFive(r0, r1, r2, r3, r4);
    assert [r0, r1, r2, r3, r4, r5] == [r0, r1, r2, r3, r4] + [r5];
    FiredAppend([r0, r1, r2, r3, r4], r5);
  }

  /** A result is produced exactly by a rule of the table that fires. */
  lemma {:induction false} FiredMembership(table: seq<Rule>, x: ValidationResult)
    ensures x in Fired(table) <==> Rule(x.kind, true) in table
  {
    if table != [] {
      var init := table[..|table| - 1];
      FiredMembership(init, x);
      assert table == init + [table[|table| - 1]];
    }
  }

  /** Every result is of a kind that some rule of the table has. */
  lemma FiredKinds(table: seq<Rule>, kinds: seq<Kind>)
    requires forall i | 0 <= i < |table| :: table[i].kind in kinds
    ensures forall x | x in Fired(table) :: x.kind in kinds
  {
    forall x | x in Fired(table) ensures x.kind in kinds {
      FiredMembership(table, x);
    }
  }

  /** When no rule fires, nothing is reported. */
  lemma {:induction false} FiredNothing(table: seq<Rule>)
    requires forall i | 0 <= i < |table| :: !table[i].fires
    ensures Fired(table) == []
  {
    if table != [] {
      FiredNothing(table[..|table| - 1]);
    }
  }

  /** When only the rule at `i` fires, its result is the only one. */
  lemma {:induction false} FiredOne(table: seq<Rule>, i: nat)
    requires i < |table| && table[i].fires
    requires forall j | 0 <= j < |table| && j != i :: !table[j].fires
    ensures Fired(table) == [ValidationResult(table[i].kind)]
  {
    var n := |table| - 1;
    if i == n {
      FiredNothing(table[..n]);
    } else {
      FiredOne(table[..n], i);
    }
  }
}
