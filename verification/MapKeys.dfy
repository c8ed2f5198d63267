/**
 The two lookups of a keyed vector.

 The strict mode bisects, the lenient mode scans. On a vector sorted by unique keys they agree; keys of
 a `ulong` above the signed range break the bisect, and exactly for which sizes is proved here.
 */
module MapKeys {
  import opened Wrappers
  import opened Schema
  import opened Executor
  import G = Grammar
  import Q = Query
  import Text

  /** What `find` would return: the first index whose key compares equal. */
  function FirstEqual(keys: seq<string>, c: CompiledKey, i: nat): (r: Option<nat>)
    requires i <= |keys|
    ensures r.Some? ==> i <= r.value < |keys| && Compare(keys[r.value], c) == Equal
    ensures r.None? ==> forall j :: i <= j < |keys| ==> Compare(keys[j], c) != Equal
    decreases |keys| - i
  {
    if i == |keys| then None
    else if Compare(keys[i], c) == Equal then Some(i)
    else FirstEqual(keys, c, i + 1)
  }

  lemma {:induction false} MatchIsEqual(actual: string, kf: Field, key: Q.MapKey)
    ensures KeyMatches(actual, kf, key) ==
            match CompileKey(kf, key)
            case Err(e) => Err(e)
            case Ok(None) => Ok(false)
            case Ok(Some(c)) => Ok(Compare(actual, c) == Equal)
  {
    hide Text.ParseI64;
    match key {
      case KeyText(text) => Text.LessTrichotomy(actual, text);
      case KeyInt(n) =>
    }
  }

  function ScanResult(keys: seq<string>, kf: Field, key: Q.MapKey, i: nat): Result<Option<nat>, ExecError>
    requires i <= |keys|
  {
    match CompileKey(kf, key)
    case Err(e) => if i == |keys| then Ok(None) else Err(e)
    case Ok(None) => Ok(None)
    case Ok(Some(c)) => Ok(FirstEqual(keys, c, i))
  }

  /** The scan, through the compiled key. */
  lemma {:induction false} ScanFindsFirst(keys: seq<string>, kf: Field, key: Q.MapKey, i: nat)
    requires i <= |keys|
    ensures Scan(keys, kf, key, i) == ScanResult(keys, kf, key, i)
    decreases |keys| - i
  {
    hide KeyMatches, CompileKey, Compare;
    if i < |keys| {
      MatchIsEqual(keys[i], kf, key);
      ScanFindsFirst(keys, kf, key, i + 1);
    }
  }

  // Sorted vectors.

  /** Ascending unique keys, in the order the keyed field's type is compared by. */
  predicate Ascending(keys: seq<string>, isText: bool) {
    if isText then Text.StrictlySorted(keys) else NumericallySorted(keys)
  }

  predicate NumericallySorted(keys: seq<string>) {
    && (forall i :: 0 <= i < |keys| ==> Text.ParseI64(keys[i]).Some?)
    && (forall i, j :: 0 <= i < j < |keys| ==> Text.ParseI64(keys[i]).value < Text.ParseI64(keys[j]).value)
  }

  /** At and before a key that is not above the target every key is below it; and dually. */
  predicate Ordered(keys: seq<string>, c: CompiledKey) {
    && (forall i, j :: 0 <= i < j < |keys| && Compare(keys[j], c) != Greater ==> Compare(keys[i], c) == Less)
    && (forall i, j :: 0 <= i < j < |keys| && Compare(keys[i], c) != Less ==> Compare(keys[j], c) == Greater)
  }

  lemma {:induction false} AscendingIsOrdered(keys: seq<string>, c: CompiledKey)
    requires Ascending(keys, c.TextKey?)
    ensures Ordered(keys, c)
  {
    hide Text.ParseI64;
    if c.TextKey? {
      forall i, j | 0 <= i < j < |keys|
        ensures Compare(keys[j], c) != Greater ==> Compare(keys[i], c) == Less
        ensures Compare(keys[i], c) != Less ==> Compare(keys[j], c) == Greater
      {
        TextOrdered(keys[i], keys[j], c.text);
      }
    }
  }

  lemma {:induction false} TextOrdered(a: string, b: string, text: string)
    requires Text.Less(a, b)
    ensures Compare(b, TextKey(text)) != Greater ==> Compare(a, TextKey(text)) == Less
    ensures Compare(a, TextKey(text)) != Less ==> Compare(b, TextKey(text)) == Greater
  {
    Text.LessTrichotomy(b, text);
    Text.LessTrichotomy(a, text);
    Text.LessTrichotomy(a, b);
    if Text.Less(b, text) { Text.LessTransitive(a, b, text); }
    if Text.Less(text, a) { Text.LessTransitive(text, a, b); }
  }

  /** On ordered keys the bisect of a range finds the equal key if the range has one. */
  lemma {:induction false} BisectFinds(keys: seq<string>, c: CompiledKey, lo: nat, hi: nat)
    requires lo <= hi <= |keys| && Ordered(keys, c)
    ensures forall i :: lo <= i < hi && Compare(keys[i], c) == Equal ==> Bisect(keys, c, lo, hi) == Some(i)
    ensures Bisect(keys, c, lo, hi).Some? ==> Compare(keys[Bisect(keys, c, lo, hi).value], c) == Equal
    decreases hi - lo
  {
    hide Compare;
    if lo < hi {
      var mid := lo + (hi - lo) / 2;
      match Compare(keys[mid], c) {
        case Equal =>
        case Less => BisectFinds(keys, c, mid + 1, hi);
        case Greater => BisectFinds(keys, c, lo, mid);
      }
    }
  }

  /**
   Bisect refines scan: on sorted unique keys both modes settle on the same element for every literal.
   They differ only where the key's type is unsupported and there is no element to report it on.
   */
  lemma {:induction false} BisectRefinesScan(keys: seq<string>, kf: Field, key: Q.MapKey)
    requires Ascending(keys, kf.typ.String?)
    ensures StrictIndex(keys, kf, key) == Scan(keys, kf, key, 0) <==> !(keys == [] && CompileKey(kf, key).Err?)
  {
    hide Compare, Ascending, Text.ParseI64, KeyMatches;
    ScanFindsFirst(keys, kf, key, 0);
    match CompileKey(kf, key) {
      case Ok(Some(c)) =>
        AscendingIsOrdered(keys, c);
        BisectFinds(keys, c, 0, |keys|);
        assert Bisect(keys, c, 0, |keys|) == FirstEqual(keys, c, 0);
      case _ =>
    }
  }

  function Strict(o: ExecOptions): ExecOptions {
    o.(strictKeys := true)
  }

  function Lenient(o: ExecOptions): ExecOptions {
    o.(strictKeys := false)
  }

  // Keys above the signed range.

  /** The first `p` keys parse, in ascending order; the others do not, and compare as less. */
  predicate HighBand(keys: seq<string>, p: nat) {
    && p <= |keys|
    && NumericallySorted(keys[..p])
    && (forall i :: p <= i < |keys| ==> Text.ParseI64(keys[i]).None?)
  }

  /** The sizes the upper half of a bisect passes through on its way to nothing. */
  predicate OnChain(n: nat, q: nat) {
    n == q || (q < n && OnChain(n - n / 2 - 1, q))
  }

  /** The bisect of `[lo, hi)` finds key `i`. */
  predicate Finds(keys: seq<string>, lo: nat, hi: nat, i: nat)
    requires lo <= hi <= |keys| && i < |keys| && Text.ParseI64(keys[i]).Some?
  {
    Bisect(keys, IntKey(Text.ParseI64(keys[i]).value), lo, hi) == Some(i)
  }

  lemma {:induction false} CompareAcrossBand(keys: seq<string>, p: nat, i: nat, mid: nat)
    requires HighBand(keys, p) && i < p && mid < |keys|
    ensures Compare(keys[mid], IntKey(Text.ParseI64(keys[i]).value)) ==
            if mid < i || p <= mid then Less else if mid == i then Equal else Greater
  {
    assert keys[..p][i] == keys[i];
    if mid < p { assert keys[..p][mid] == keys[mid]; }
  }

  /** Once a probe lands in the band, no key that parses is found. */
  lemma {:induction false} NothingInBand(keys: seq<string>, p: nat, i: nat, lo: nat, hi: nat)
    requires HighBand(keys, p) && i < p <= lo <= hi <= |keys|
    ensures Bisect(keys, IntKey(Text.ParseI64(keys[i]).value), lo, hi) == None
    decreases hi - lo
  {
    hide Compare, HighBand;
    if lo < hi {
      var mid := lo + (hi - lo) / 2;
      CompareAcrossBand(keys, p, i, mid);
      NothingInBand(keys, p, i, mid + 1, hi);
    }
  }

  lemma {:induction false} BelowBand(keys: seq<string>, p: nat, i: nat, lo: nat, hi: nat)
    requires HighBand(keys, p) && lo <= i < hi <= p
    ensures Finds(keys, lo, hi, i)
    decreases hi - lo
  {
    hide Compare, HighBand;
    BandBound(keys, p);
    var mid := lo + (hi - lo) / 2;
    CompareAcrossBand(keys, p, i, mid);
    if i < mid { BelowBand(keys, p, i, lo, mid); }
    if mid < i { BelowBand(keys, p, i, mid + 1, hi); }
  }

  /** The largest key that parses steers the bisect along the chain. */
  lemma {:induction false} ChainIsNecessary(keys: seq<string>, p: nat, lo: nat)
    requires HighBand(keys, p) && lo < p
    requires Finds(keys, lo, |keys|, p - 1)
    ensures OnChain(|keys| - lo, |keys| - p)
    decreases |keys| - lo
  {
    hide Compare, HighBand, OnChain;
    var hi := |keys|;
    var mid := lo + (hi - lo) / 2;
    CompareAcrossBand(keys, p, p - 1, mid);
    if p <= mid {
      NothingInBand(keys, p, p - 1, mid + 1, hi);
    } else if mid == p - 1 {
      ChainStep(hi - lo, hi - p);
    } else {
      ChainIsNecessary(keys, p, mid + 1);
      ChainStep(hi - lo, hi - p);
    }
  }

  lemma {:induction false} ChainStep(n: nat, q: nat)
    ensures OnChain(n, n)
    ensures q < n && OnChain(n - n / 2 - 1, q) ==> OnChain(n, q)
    ensures q == n - n / 2 - 1 ==> OnChain(n, q)
  {
  }

  lemma {:induction false} ChainIsSufficient(keys: seq<string>, p: nat, i: nat, lo: nat)
    requires HighBand(keys, p) && lo <= i < p
    requires OnChain(|keys| - lo, |keys| - p)
    ensures Finds(keys, lo, |keys|, i)
    decreases |keys| - lo
  {
    hide Compare, HighBand;
    BandBound(keys, p);
    var hi := |keys|;
    var mid := lo + (hi - lo) / 2;
    CompareAcrossBand(keys, p, i, mid);
    assert OnChain(hi - (mid + 1), hi - p);
    ChainShrinks(hi - (mid + 1), hi - p);
    if i < mid { BelowBand(keys, p, i, lo, mid); }
    if mid < i { ChainIsSufficient(keys, p, i, mid + 1); }
  }

  lemma {:induction false} ChainShrinks(n: nat, q: nat)
    requires OnChain(n, q)
    ensures q <= n
  {
  }

  /** A literal that no key equals is found by neither. */
  lemma {:induction false} BisectSound(keys: seq<string>, c: CompiledKey, lo: nat, hi: nat)
    requires lo <= hi <= |keys|
    ensures Bisect(keys, c, lo, hi).Some? ==> Compare(keys[Bisect(keys, c, lo, hi).value], c) == Equal
    decreases hi - lo
  {
    hide Compare;
    if lo < hi {
      var mid := lo + (hi - lo) / 2;
      match Compare(keys[mid], c) {
        case Equal =>
        case Less => BisectSound(keys, c, mid + 1, hi);
        case Greater => BisectSound(keys, c, lo, mid);
      }
    }
  }

  predicate SameIndex(keys: seq<string>, kf: Field, key: Q.MapKey) {
    StrictIndex(keys, kf, key) == Scan(keys, kf, key, 0)
  }

  lemma {:induction false} AgreesOnChain(keys: seq<string>, p: nat, kf: Field, key: Q.MapKey)
    requires IsIntegerKeyType(kf.typ) && HighBand(keys, p) && OnChain(|keys|, |keys| - p)
    ensures SameIndex(keys, kf, key)
  {
    hide HighBand, OnChain, Finds;
    ScanFindsFirst(keys, kf, key, 0);
    match CompileKey(kf, key) {
      case Ok(Some(IntKey(n))) => FoundOnChain(keys, p, n);
      case _ =>
    }
  }

  lemma {:induction false} FoundOnChain(keys: seq<string>, p: nat, n: int)
    requires HighBand(keys, p) && OnChain(|keys|, |keys| - p)
    ensures Bisect(keys, IntKey(n), 0, |keys|) == FirstEqual(keys, IntKey(n), 0)
  {
    hide HighBand, OnChain, Bisect;
    BisectSound(keys, IntKey(n), 0, |keys|);
    if FirstEqual(keys, IntKey(n), 0).Some? {
      var i := FirstEqual(keys, IntKey(n), 0).value;
      assert Text.ParseI64(keys[i]) == Some(n);
      BandMember(keys, p, i);
      ChainIsSufficient(keys, p, i, 0);
    }
  }

  lemma {:induction false} BandMember(keys: seq<string>, p: nat, i: nat)
    requires HighBand(keys, p) && i < |keys| && Text.ParseI64(keys[i]).Some?
    ensures i < p
  {
  }

  // The literals a query can carry.

  /** A literal between brackets; digits alone would be an index. */
  predicate IsLiteral(key: Q.MapKey) {
    key.KeyText? && G.IsKeyText(key.text)
  }

  /** The integer with its sign, which makes it a literal. */
  function Signed(n: int): string {
    if n < 0 then Text.Dec(n) else "+" + Text.Dec(n)
  }

  lemma {:induction false} SignedIsLiteral(n: int)
    ensures G.IsKeyText(Signed(n)) && Text.ParseI64(Signed(n)) == Text.InI64(n)
  {
    hide Text.DecNat;
    Text.ParseDec(n);
    var digits := Text.DecNat(if n < 0 then -n else n);
    Text.DecNatValue(if n < 0 then -n else n);
    var sign := if n < 0 then "-" else "+";
    assert Signed(n) == sign + digits;
    assert Signed(n)[1..] == digits;
    assert !Text.IsDigit(Signed(n)[0]);
    forall i | 0 <= i < |Signed(n)| ensures Signed(n)[i] != ']' && Signed(n)[i] != ':' {
      if i > 0 { assert Signed(n)[i] == digits[i - 1] && Text.IsDigit(digits[i - 1]); }
    }
  }

  /** For integer keys with a band that does not parse: the modes agree on every literal exactly on the chain. */
  lemma {:induction false} BisectExact(keys: seq<string>, p: nat, kf: Field)
    requires IsIntegerKeyType(kf.typ) && HighBand(keys, p)
    ensures (forall key :: IsLiteral(key) ==> SameIndex(keys, kf, key)) <==> OnChain(|keys|, |keys| - p)
  {
    hide HighBand, OnChain, SameIndex, IsLiteral;
    BandBound(keys, p);
    if OnChain(|keys|, |keys| - p) {
      forall key ensures SameIndex(keys, kf, key) { AgreesOnChain(keys, p, kf, key); }
    } else if forall key :: IsLiteral(key) ==> SameIndex(keys, kf, key) {
      if p == 0 { ChainStep(|keys|, 0); } else {
        LargestFound(keys, p, kf);
        ChainIsNecessary(keys, p, 0);
      }
    }
  }

  lemma {:induction false} BandBound(keys: seq<string>, p: nat)
    requires HighBand(keys, p)
    ensures p <= |keys|
    ensures p > 0 ==> Text.ParseI64(keys[p - 1]).Some?
  {
    if p > 0 { assert keys[..p][p - 1] == keys[p - 1]; }
  }

  lemma {:induction false} LargestFound(keys: seq<string>, p: nat, kf: Field)
    requires IsIntegerKeyType(kf.typ) && HighBand(keys, p) && p > 0
    requires forall key :: IsLiteral(key) ==> SameIndex(keys, kf, key)
    ensures p <= |keys| && Text.ParseI64(keys[p - 1]).Some? && Finds(keys, 0, |keys|, p - 1)
  {
    hide HighBand, Bisect, Signed, G.IsKeyText;
    BandBound(keys, p);
    var n := Text.ParseI64(keys[p - 1]).value;
    var key := Q.KeyText(Signed(n));
    SignedIsLiteral(n);
    assert IsLiteral(key) && SameIndex(keys, kf, key);
    ScanFindsFirst(keys, kf, key, 0);
    assert CompileKey(kf, key) == Ok(Some(IntKey(n)));
    CompareAcrossBand(keys, p, p - 1, p - 1);
    var i := FirstEqual(keys, IntKey(n), 0).value;
    CompareAcrossBand(keys, p, p - 1, i);
  }

  // The same about a vector of unsigned keys.

  predicate AscendingNumbers(values: seq<nat>) {
    forall i, j :: 0 <= i < j < |values| ==> values[i] < values[j]
  }

  function Texts(values: seq<nat>): (keys: seq<string>)
    ensures |keys| == |values|
  {
    seq(|values|, i requires 0 <= i < |values| => Text.Dec(values[i]))
  }

  /** How many values lie above `i64::MAX`. */
  function Above(values: seq<nat>): (q: nat)
    ensures q <= |values|
  {
    if values == [] then 0
    else Above(values[..|values| - 1]) + (if values[|values| - 1] > Text.I64_MAX then 1 else 0)
  }

  lemma {:induction false} AboveIsSuffix(values: seq<nat>)
    requires AscendingNumbers(values)
    ensures forall i :: 0 <= i < |values| ==> (values[i] > Text.I64_MAX <==> i >= |values| - Above(values))
  {
    if values != [] {
      var init := values[..|values| - 1];
      AboveIsSuffix(init);
      assert forall i :: 0 <= i < |init| ==> init[i] == values[i];
    }
  }

  lemma {:induction false} TextsHaveBand(values: seq<nat>)
    requires AscendingNumbers(values)
    ensures HighBand(Texts(values), |values| - Above(values))
  {
    hide Text.ParseI64, Text.Dec, Above;
    AboveIsSuffix(values);
    forall i | 0 <= i < |values|
      ensures Text.ParseI64(Texts(values)[i]) == Text.InI64(values[i])
    {
      Text.ParseDec(values[i]);
    }
  }

  /**
   A sorted vector of `ulong` keys with `q` of its `n` keys above `i64::MAX`: strict lookup agrees with
   the scan on every literal if and only if `q` is one of the sizes `n`, `(n-1)/2`, ... of the chain.
   */
  lemma {:induction false} UnsignedLookupExact(values: seq<nat>, kf: Field)
    requires IsIntegerKeyType(kf.typ) && AscendingNumbers(values)
    ensures (forall key :: IsLiteral(key) ==> SameIndex(Texts(values), kf, key)) <==> OnChain(|values|, Above(values))
  {
    hide *;
    TextsHaveBand(values);
    BisectExact(Texts(values), |values| - Above(values), kf);
  }
}
