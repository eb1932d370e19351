/** How the encryption processor classifies an algorithm by its name. */
module AlgorithmNames {
  import opened Text

  const PgpPrefix: string := "PGP"
  const ArmorSuffix: string := "ASCII-ARMOR"

  /** `isPGPAlgorithm`: OpenPGP algorithms are the ones whose name starts with "PGP". */
  predicate IsPGPAlgorithm(algorithm: string)
    ensures IsPGPAlgorithm(algorithm) <==> |algorithm| >= 3 && algorithm[0] == 'P' && algorithm[1] == 'G' && algorithm[2] == 'P'
  {
    StartsWith(algorithm, PgpPrefix)
  }

  /** `isPGPArmoredAlgorithm`: an OpenPGP algorithm whose output is ASCII armored. */
  predicate IsPGPArmoredAlgorithm(algorithm: string)
    ensures IsPGPArmoredAlgorithm(algorithm) ==> IsPGPAlgorithm(algorithm)
  {
    IsPGPAlgorithm(algorithm) && EndsWith(algorithm, ArmorSuffix)
  }

  /** An OpenPGP algorithm name is "PGP" followed by anything. */
  lemma PGPAlgorithmShape(algorithm: string)
    ensures IsPGPAlgorithm(algorithm) <==> exists rest :: algorithm == PgpPrefix + rest
  {
    if IsPGPAlgorithm(algorithm) {
      assert algorithm == PgpPrefix + algorithm[|PgpPrefix|..];
    }
  }

  /**
   * An armored name is "PGP", then anything, then "ASCII-ARMOR": the prefix
   * and the suffix cannot share characters, so the name has at least 14.
   */
  lemma PGPArmoredAlgorithmShape(algorithm: string)
    ensures IsPGPArmoredAlgorithm(algorithm) <==> exists middle :: algorithm == PgpPrefix + middle + ArmorSuffix
  {
    var a := algorithm;
    if IsPGPArmoredAlgorithm(a) {
      var n := |a|;
      assert a[n - 11] == 'A';
      assert n >= 14;
      var middle := a[3..n - 11];
      assert a == a[..3] + middle + a[n - 11..];
      assert a == PgpPrefix + middle + ArmorSuffix;
    }
    if exists middle :: a == PgpPrefix + middle + ArmorSuffix {
      var middle :| a == PgpPrefix + middle + ArmorSuffix;
      assert a[..3] == PgpPrefix;
      assert a[|a| - 11..] == ArmorSuffix;
    }
  }
}
