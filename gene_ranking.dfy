/**
 * Gene selection of the somatic-interaction tool:
 * `maf_df["Hugo_Symbol"].value_counts().nlargest(top_n).index.tolist()`.
 * Genes are ranked by their number of ROWS in the table. pandas fixes the
 * order among genes with equal counts; the selection below takes the first
 * listed one, and every contract is stated so that it holds whatever that
 * order is.
 */
module GeneRanking {
  import opened MafTable

  /** Counts never increase along `genes`. */
  predicate NonIncreasing(count: string -> nat, genes: seq<string>) {
    forall a, b :: 0 <= a < b < |genes| ==> count(genes[a]) >= count(genes[b])
  }

  /** No gene of `pool` left out of `chosen` has a larger count than the last chosen one. */
  predicate NoneLeftAbove(count: string -> nat, pool: seq<string>, chosen: seq<string>) {
    |chosen| > 0 ==> forall g :: g in pool && g !in chosen ==> count(g) <= count(chosen[|chosen| - 1])
  }

  function Min(a: nat, b: nat): nat { if a < b then a else b }

  /** The position of the first gene of `cands` with the largest count. */
  function FirstMaximum(count: string -> nat, cands: seq<string>): (m: nat)
    requires |cands| > 0
    ensures m < |cands|
    ensures forall t :: 0 <= t < |cands| ==> count(cands[t]) <= count(cands[m])
    ensures forall t :: 0 <= t < m ==> count(cands[t]) < count(cands[m])
  {
    if |cands| == 1 then 0
    else
      var m := FirstMaximum(count, cands[..|cands| - 1]);
      if count(cands[|cands| - 1]) > count(cands[m]) then |cands| - 1 else m
  }

  /** `cands` without its element at position `m`. */
  function RemoveAt(cands: seq<string>, m: nat): (rest: seq<string>)
    requires m < |cands| && NoDuplicates(cands)
    ensures |rest| == |cands| - 1
    ensures NoDuplicates(rest)
    ensures forall g :: g in rest <==> g in cands && g != cands[m]
  {
    var rest := cands[..m] + cands[m + 1..];
    assert forall k :: 0 <= k < |rest| ==> rest[k] == if k < m then cands[k] else cands[k + 1];
    assert forall g :: g in cands ==> g in rest || g == cands[m] by {
      forall g | g in cands ensures g in rest || g == cands[m] {
        var k :| 0 <= k < |cands| && cands[k] == g;
        if k < m { assert rest[k] == g; } else if k > m { assert rest[k - 1] == g; }
      }
    }
    rest
  }

  lemma ConsNoDuplicates(h: string, rest: seq<string>)
    requires h !in rest && NoDuplicates(rest)
    ensures NoDuplicates([h] + rest)
  {
    var s := [h] + rest;
    forall a, b | 0 <= a < b < |s| ensures s[a] != s[b] {
      assert s[b] == rest[b - 1];
      if a > 0 { assert s[a] == rest[a - 1]; }
    }
  }

  /** The `k` genes of `cands` with the largest counts, largest first. */
  function Select(count: string -> nat, cands: seq<string>, k: nat): (top: seq<string>)
    requires NoDuplicates(cands)
    ensures |top| == Min(k, |cands|)
    ensures NoDuplicates(top)
    ensures forall g :: g in top ==> g in cands
    decreases k
  {
    if k == 0 || |cands| == 0 then []
    else
      var m := FirstMaximum(count, cands);
      var rest := Select(count, RemoveAt(cands, m), k - 1);
      ConsNoDuplicates(cands[m], rest);
      [cands[m]] + rest
  }

  /** Counts do not increase along the selection. */
  lemma {:induction false} SelectNonIncreasing(count: string -> nat, cands: seq<string>, k: nat)
    requires NoDuplicates(cands)
    ensures NonIncreasing(count, Select(count, cands, k))
    decreases k
  {
    if k > 0 && |cands| > 0 {
      var m := FirstMaximum(count, cands);
      var remaining := RemoveAt(cands, m);
      var rest := Select(count, remaining, k - 1);
      var top := [cands[m]] + rest;
      assert Select(count, cands, k) == top;
      SelectNonIncreasing(count, remaining, k - 1);
      forall a, b | 0 <= a < b < |top| ensures count(top[a]) >= count(top[b]) {
        assert top[b] == rest[b - 1];
        if a == 0 {
          assert top[b] in cands;
          var t :| 0 <= t < |cands| && cands[t] == top[b];
        } else {
          assert top[a] == rest[a - 1];
        }
      }
    }
  }

  /** The first maximum bounds the count of every member, not only of every position. */
  lemma MaximumBoundsMembers(count: string -> nat, cands: seq<string>)
    requires |cands| > 0
    ensures forall g :: g in cands ==> count(g) <= count(cands[FirstMaximum(count, cands)])
  {
    forall g | g in cands ensures count(g) <= count(cands[FirstMaximum(count, cands)]) {
      var t :| 0 <= t < |cands| && cands[t] == g;
    }
  }

  /** No candidate left out of the selection has a larger count than the last selected gene. */
  lemma {:induction false} SelectNoneLeftAbove(count: string -> nat, cands: seq<string>, k: nat)
    requires NoDuplicates(cands)
    ensures NoneLeftAbove(count, cands, Select(count, cands, k))
    decreases k
  {
    if k > 0 && |cands| > 0 {
      var m := FirstMaximum(count, cands);
      assert Select(count, cands, k) == [cands[m]] + Select(count, RemoveAt(cands, m), k - 1);
      if k == 1 || |cands| == 1 {
        MaximumBoundsMembers(count, cands);
      } else {
        SelectNoneLeftAbove(count, RemoveAt(cands, m), k - 1);
      }
    }
  }

  /** Along a non-increasing selection, the last gene bounds every gene left out, so every gene kept does. */
  lemma KeptBoundLeftOut(count: string -> nat, pool: seq<string>, chosen: seq<string>)
    requires NonIncreasing(count, chosen) && NoneLeftAbove(count, pool, chosen)
    ensures forall g, s :: g in pool && g !in chosen && s in chosen ==> count(g) <= count(s)
  {
    forall g, s | g in pool && g !in chosen && s in chosen ensures count(g) <= count(s) {
      var a :| 0 <= a < |chosen| && chosen[a] == s;
      assert count(chosen[a]) >= count(chosen[|chosen| - 1]);
    }
  }

  /** The ranking key: `value_counts()` of the `Hugo_Symbol` column. */
  function RowCounts(rs: seq<Record>): string -> nat
  {
    g => RowCount(rs, g)
  }

  /**
   * `top_genes` for a given `top_n`: distinct genes of the table, as many as
   * `top_n` allows (none when `top_n <= 0`), in non-increasing order of row
   * count, and no gene left out has more rows than a gene kept.
   */
  function TopGenes(rs: seq<Record>, topN: int): (top: seq<string>)
    ensures |top| == Min(if topN <= 0 then 0 else topN, |Genes(rs)|)
    ensures NoDuplicates(top)
    ensures forall g :: g in top ==> g in Genes(rs)
    ensures forall a, b :: 0 <= a < b < |top| ==> RowCount(rs, top[a]) >= RowCount(rs, top[b])
    ensures forall g, s :: g in Genes(rs) && g !in top && s in top ==> RowCount(rs, g) <= RowCount(rs, s)
  {
    var cands := Unique(GeneSymbols(rs));
    GeneCountIsDistinctGenes(rs);
    var n := if topN <= 0 then 0 else topN;
    var top := Select(RowCounts(rs), cands, n);
    SelectNonIncreasing(RowCounts(rs), cands, n);
    SelectNoneLeftAbove(RowCounts(rs), cands, n);
    KeptBoundLeftOut(RowCounts(rs), cands, top);
    top
  }
}
