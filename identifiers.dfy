/**
 * The per-instance prefixes and the instance container ids built from the
 * iteration counter, and why they never collide: two identifiers built from
 * the prefixes of different iterations differ, whatever follows the prefix.
 */
module Identifiers {
  import opened Decimal

  /** The prefix a Template of js/multiform.js gives instance n: prefix + "_" + n + "-". */
  function InstancePrefix(prefix: string, n: nat): string {
    prefix + "_" + NatToString(n) + "-"
  }

  /** The prefix in multiform.js: "[prefix_]" + n + "-", the "prefix_" part only for a non-empty prefix. */
  function InstancePrefixV2(prefix: string, n: nat): string {
    (if prefix != "" then prefix + "_" else "") + NatToString(n) + "-"
  }

  /** The id of an instance's container element. */
  function ItemContainerId(instancePrefix: string): string {
    instancePrefix + "item_container"
  }

  /**
   * An instance prefix reads back as the template's prefix, "_", the
   * iteration in decimal and a closing "-".
   */
  lemma InstancePrefixReadsBack(prefix: string, n: nat)
    ensures var p := InstancePrefix(prefix, n);
      && |p| >= |prefix| + 3 && p[..|prefix| + 1] == prefix + "_" && p[|p| - 1] == '-'
      && AllDigits(p[|prefix| + 1..|p| - 1]) && ValueOf(p[|prefix| + 1..|p| - 1]) == n
  {
    var p := InstancePrefix(prefix, n);
    assert p[|prefix| + 1..|p| - 1] == NatToString(n);
    ValueOfNatToString(n);
  }

  /**
   * In multiform.js the prefix is that of js/multiform.js when the
   * template has a prefix, and otherwise just the iteration in decimal
   * followed by "-".
   */
  lemma InstancePrefixV2ReadsBack(prefix: string, n: nat)
    ensures prefix != "" ==> InstancePrefixV2(prefix, n) == InstancePrefix(prefix, n)
    ensures prefix == "" ==>
              var p := InstancePrefixV2(prefix, n);
              && |p| >= 2 && p[|p| - 1] == '-'
              && AllDigits(p[..|p| - 1]) && ValueOf(p[..|p| - 1]) == n
  {
    if prefix == "" {
      var p := InstancePrefixV2(prefix, n);
      assert p[..|p| - 1] == NatToString(n);
      ValueOfNatToString(n);
    }
  }

  /** lead + n + "-" + a determines n and a. */
  lemma NumberedNamesDistinct(lead: string, m: nat, n: nat, a: string, b: string)
    requires lead + NatToString(m) + "-" + a == lead + NatToString(n) + "-" + b
    ensures m == n && a == b
  {
    var x := lead + NatToString(m) + "-" + a;
    assert x == lead + (NatToString(m) + "-" + a);
    assert x == lead + (NatToString(n) + "-" + b);
    assert x[|lead|..] == NatToString(m) + "-" + a == NatToString(n) + "-" + b;
    DigitsThenDash(NatToString(m), NatToString(n), a, b);
    NatToStringInjective(m, n);
  }

  /**
   * Prefixed names of one Template never collide across iterations: equal
   * names come from the same iteration and the same original name.
   */
  lemma PrefixedNamesDistinct(prefix: string, m: nat, n: nat, a: string, b: string)
    requires InstancePrefix(prefix, m) + a == InstancePrefix(prefix, n) + b
    ensures m == n && a == b
  {
    NumberedNamesDistinct(prefix + "_", m, n, a, b);
  }

  /** The same for the prefixes of multiform.js. */
  lemma PrefixedNamesDistinctV2(prefix: string, m: nat, n: nat, a: string, b: string)
    requires InstancePrefixV2(prefix, m) + a == InstancePrefixV2(prefix, n) + b
    ensures m == n && a == b
  {
    NumberedNamesDistinct(if prefix != "" then prefix + "_" else "", m, n, a, b);
  }

  /** Instance container ids are pairwise distinct across iterations. */
  lemma ItemContainerIdsDistinct(prefix: string, m: nat, n: nat)
    requires m != n
    ensures ItemContainerId(InstancePrefix(prefix, m)) != ItemContainerId(InstancePrefix(prefix, n))
  {
    if ItemContainerId(InstancePrefix(prefix, m)) == ItemContainerId(InstancePrefix(prefix, n)) {
      PrefixedNamesDistinct(prefix, m, n, "item_container", "item_container");
    }
  }

  lemma ItemContainerIdsDistinctV2(prefix: string, m: nat, n: nat)
    requires m != n
    ensures ItemContainerId(InstancePrefixV2(prefix, m)) != ItemContainerId(InstancePrefixV2(prefix, n))
  {
    if ItemContainerId(InstancePrefixV2(prefix, m)) == ItemContainerId(InstancePrefixV2(prefix, n)) {
      PrefixedNamesDistinctV2(prefix, m, n, "item_container", "item_container");
    }
  }
}
