/**
 * The keyspace part of the Redis INFO watcher (cmd/kguard/watchers/redis/info.go):
 * extractKeysCount pulls N out of a keyspace line `db0:keys=N,expires=...,avg_ttl=...`,
 * and updateRedisInfo sums it, as a Go int64, over the `db*` entries of the INFO map.
 *
 * The Go library calls it relies on are modelled here too: strings.SplitN(s, sep, 2),
 * strings.HasPrefix, strings.Contains and strconv.ParseInt(s, 10, 64), whose error
 * result the watcher ignores.
 */
module RedisInfo {
  import opened Base

  const Int64Min: int := -0x8000_0000_0000_0000
  const Int64Max: int := 0x7fff_ffff_ffff_ffff
  const Uint64Max: int := 0xffff_ffff_ffff_ffff
  const Int64Modulus: int := 0x1_0000_0000_0000_0000

  type Int64 = x: int | -0x8000_0000_0000_0000 <= x < 0x8000_0000_0000_0000

  /** Go's two's-complement int64 addition result: x reduced into the int64 range. */
  function Wrap64(x: int): (w: Int64)
    ensures (w - x) % Int64Modulus == 0
    ensures Int64Min <= x <= Int64Max ==> w == x
  {
    ((x + 0x8000_0000_0000_0000) % Int64Modulus) - 0x8000_0000_0000_0000
  }

  /** Wrapping after every addition is the same as wrapping once at the end. */
  lemma WrapAdd(a: int, b: int)
    ensures Wrap64(Wrap64(a) + b) == Wrap64(a + b)
  {
    var q := (a + 0x8000_0000_0000_0000) / Int64Modulus;
    assert Wrap64(a) == a - q * Int64Modulus;
    assert Wrap64(a) + b + 0x8000_0000_0000_0000 == (a + b + 0x8000_0000_0000_0000) - q * Int64Modulus;
  }

  // ---------------------------------------------------------------------------
  // Substrings (package strings)

  predicate OccursAt(s: string, pat: string, i: nat)
  {
    i + |pat| <= |s| && s[i..i + |pat|] == pat
  }

  /** The first index at or after `from` where pat occurs in s. */
  function Find(s: string, pat: string, from: nat): (r: Option<nat>)
    requires from <= |s|
    ensures r.Some? ==> from <= r.value && OccursAt(s, pat, r.value)
    ensures r.Some? ==> forall k | from <= k < r.value :: !OccursAt(s, pat, k)
    ensures r.None? ==> forall k | from <= k <= |s| :: !OccursAt(s, pat, k)
    decreases |s| - from
  {
    if OccursAt(s, pat, from) then Some(from)
    else if from == |s| then None
    else Find(s, pat, from + 1)
  }

  /** strings.Contains */
  predicate Contains(s: string, pat: string)
  {
    Find(s, pat, 0).Some?
  }

  /** strings.HasPrefix */
  predicate HasPrefix(s: string, prefix: string)
  {
    |prefix| <= |s| && s[..|prefix|] == prefix
  }

  /**
   * strings.SplitN(s, sep, 2) for a non-empty separator: the text before the first
   * occurrence of sep and the text after it, or s alone when sep does not occur.
   */
  function SplitN2(s: string, sep: string): (parts: seq<string>)
    requires sep != []
    ensures |parts| == 1 || |parts| == 2
    ensures |parts| == 1 ==> parts[0] == s && forall k | 0 <= k <= |s| :: !OccursAt(s, sep, k)
    ensures |parts| == 2 ==> parts[0] + sep + parts[1] == s
    ensures |parts| == 2 ==> forall k | 0 <= k < |parts[0]| :: !OccursAt(s, sep, k)
  {
    match Find(s, sep, 0)
    case None => [s]
    case Some(i) =>
      assert s[..i] + sep + s[i + |sep|..] == s by {
        assert s[i..i + |sep|] == sep;
        assert s == s[..i] + s[i..i + |sep|] + s[i + |sep|..];
      }
      [s[..i], s[i + |sep|..]]
  }

  /** When sep first occurs right after `before`, SplitN2 splits there. */
  lemma SplitAt(before: string, sep: string, after: string)
    requires sep != []
    requires forall k | 0 <= k < |before| :: !OccursAt(before + sep, sep, k)
    ensures SplitN2(before + sep + after, sep) == [before, after]
  {
    var s := before + sep + after;
    assert OccursAt(s, sep, |before|) by {
      assert s[|before|..|before| + |sep|] == sep;
    }
    forall k | 0 <= k < |before|
      ensures !OccursAt(s, sep, k)
    {
      assert !OccursAt(before + sep, sep, k);
      assert (before + sep) == s[..|before| + |sep|];
      if k + |sep| <= |s| {
        assert s[k..k + |sep|] == (before + sep)[k..k + |sep|];
      }
    }
    var f := Find(s, sep, 0);
    assert f == Some(|before|);
    assert s[..|before|] == before;
    assert s[|before| + |sep|..] == after;
  }

  /** A separator of one character not in t occurs nowhere in t. */
  lemma NoOccurrence(t: string, c: char)
    requires c !in t
    ensures forall k | 0 <= k <= |t| :: !OccursAt(t, [c], k)
  {
    forall k | 0 <= k <= |t|
      ensures !OccursAt(t, [c], k)
    {
      if k < |t| {
        assert t[k..k + 1][0] == t[k];
      }
    }
  }

  // ---------------------------------------------------------------------------
  // Decimal integers (strconv.ParseInt(s, 10, 64) and its inverse)

  predicate IsDigit(c: char)
  {
    '0' <= c <= '9'
  }

  predicate AllDigits(s: string)
  {
    forall i | 0 <= i < |s| :: IsDigit(s[i])
  }

  /** The number a string of decimal digits spells. */
  function Value(ds: string): nat
    requires AllDigits(ds)
  {
    if ds == [] then 0 else 10 * Value(ds[..|ds| - 1]) + (ds[|ds| - 1] as int - '0' as int)
  }

  /** The outcome of strconv.ParseUint(s, 10, 64). */
  datatype UintResult = UintOk(u: nat) | SyntaxError | RangeError

  /**
   * The digit loop of strconv.ParseUint in base 10 from index i, with n accumulated so
   * far: a character that is not a digit is a syntax error; an accumulator that would
   * pass 2^64 - 1 is a range error, whatever follows.
   */
  function ParseDigits(s: string, i: nat, n: nat): (r: UintResult)
    requires i <= |s| && n <= Uint64Max
    ensures r.UintOk? ==> r.u <= Uint64Max
    decreases |s| - i
  {
    if i == |s| then UintOk(n)
    else if !IsDigit(s[i]) then SyntaxError
    else if n >= Uint64Max / 10 + 1 then RangeError
    else
      var n1 := n * 10 + (s[i] as int - '0' as int);
      if n1 > Uint64Max then RangeError else ParseDigits(s, i + 1, n1)
  }

  /** strconv.ParseUint(s, 10, 64): the empty string is a syntax error. */
  function ParseUint10(s: string): (r: UintResult)
    ensures r.UintOk? ==> r.u <= Uint64Max
  {
    if s == [] then SyntaxError else ParseDigits(s, 0, 0)
  }

  predicate IsSign(c: char)
  {
    c == '+' || c == '-'
  }

  /**
   * strconv.ParseInt(s, 10, 64) with its error dropped, as extractKeysCount uses it:
   * 0 on a syntax error; on a range error the value saturates at the int64 bound of
   * the sign.
   */
  function ParseInt64(s: string): (n: Int64)
    ensures s == [] ==> n == 0
    ensures n > 0 ==> s[0] != '-'
    ensures n < 0 ==> s[0] == '-'
  {
    if s == [] then 0
    else
      var neg := s[0] == '-';
      var body := if IsSign(s[0]) then s[1..] else s;
      match ParseUint10(body)
      case SyntaxError => 0
      case RangeError => if neg then Int64Min else Int64Max
      case UintOk(u) =>
        if !neg && u >= 0x8000_0000_0000_0000 then Int64Max
        else if neg && u > 0x8000_0000_0000_0000 then Int64Min
        else if neg then -(u as int)
        else u
  }

  /** The decimal digits of m, without leading zeros. */
  function Digits(m: nat): (ds: string)
    ensures |ds| >= 1 && AllDigits(ds) && Value(ds) == m
    ensures ds[0] != '0' || m == 0
  {
    var last := ['0' + (m % 10) as char];
    if m < 10 then last
    else
      var front := Digits(m / 10);
      var ds := front + last;
      assert ds[..|ds| - 1] == front;
      ds
  }

  /** strconv.FormatInt(n, 10). */
  function FormatInt(n: Int64): (s: string)
    ensures |s| >= 1 && ',' !in s
  {
    if n < 0 then "-" + Digits(-(n as int)) else Digits(n)
  }

  /** A value grows when a digit is appended: every prefix of a digit string spells at most the whole. */
  lemma {:induction false} ValuePrefix(s: string, i: nat)
    requires AllDigits(s) && i <= |s|
    ensures AllDigits(s[..i]) && Value(s[..i]) <= Value(s)
    decreases |s| - i
  {
    if i == |s| {
      assert s[..i] == s;
    } else {
      ValuePrefix(s, i + 1);
      assert s[..i + 1][..i] == s[..i];
    }
  }

  /** The digit loop over an all-digit string yields its value, or a range error when that exceeds 2^64 - 1. */
  lemma {:induction false} ParseDigitsValue(s: string, i: nat)
    requires AllDigits(s) && i <= |s|
    requires Value(s[..i]) <= Uint64Max
    ensures ParseDigits(s, i, Value(s[..i])) == if Value(s) <= Uint64Max then UintOk(Value(s)) else RangeError
    decreases |s| - i
  {
    assert s[..|s|] == s;
    if i < |s| {
      var n := Value(s[..i]);
      assert s[..i + 1][..i] == s[..i];
      var n1 := Value(s[..i + 1]);
      assert n1 == n * 10 + (s[i] as int - '0' as int);
      ValuePrefix(s, i + 1);
      if n >= Uint64Max / 10 + 1 {
        assert n1 > Uint64Max;
      } else if n1 <= Uint64Max {
        ParseDigitsValue(s, i + 1);
      }
    }
  }

  /** strconv.ParseUint on a non-empty digit string. */
  lemma ParseUintDigits(s: string)
    requires s != [] && AllDigits(s)
    ensures ParseUint10(s) == if Value(s) <= Uint64Max then UintOk(Value(s)) else RangeError
  {
    assert s[..0] == [];
    ParseDigitsValue(s, 0);
  }

  /** Parsing what FormatInt prints gives the number back. */
  lemma ParseFormat(n: Int64)
    ensures ParseInt64(FormatInt(n)) == n
  {
    if n < 0 {
      var m: nat := -(n as int);
      var d := Digits(m);
      ParseUintDigits(d);
      assert ParseUint10(d) == UintOk(m);
      assert ("-" + d)[1..] == d;
      assert ParseInt64("-" + d) == n;
    } else {
      var d := Digits(n);
      ParseUintDigits(d);
      assert ParseUint10(d) == UintOk(n);
      assert d[0] != '-' && d[0] != '+';
    }
  }

  /** An unsigned count beyond the int64 range saturates at the largest int64, not 0. */
  lemma ParseSaturates(s: string)
    requires s != [] && AllDigits(s) && Value(s) > Int64Max
    ensures ParseInt64(s) == Int64Max
  {
    ParseUintDigits(s);
  }

  /** A negative count beyond the int64 range saturates at the smallest int64. */
  lemma ParseSaturatesNegative(s: string)
    requires s != [] && AllDigits(s) && Value(s) > -Int64Min
    ensures ParseInt64("-" + s) == Int64Min
  {
    assert ("-" + s)[1..] == s;
    ParseUintDigits(s);
  }

  /**
   * A character that is neither a digit nor a leading sign, after digits that do not
   * overflow 2^64 - 1, makes the parse a syntax error, read as 0. ParseSignedJunk covers
   * the same after a leading sign.
   */
  lemma ParseJunk(t: string, i: nat)
    requires i < |t| && !IsDigit(t[i]) && !(i == 0 && IsSign(t[0]))
    requires AllDigits(t[..i]) && Value(t[..i]) <= Uint64Max
    ensures ParseInt64(t) == 0
  {
    if i > 0 {
      assert IsDigit(t[..i][0]);
    }
    assert t[..0] == [];
    JunkAfterDigits(t, 0, i);
  }

  /**
   * The same after a leading sign: `-x`, `+12x` and the like are syntax errors, read as 0.
   */
  lemma ParseSignedJunk(t: string, i: nat)
    requires 1 <= i < |t| && IsSign(t[0]) && !IsDigit(t[i])
    requires AllDigits(t[1..i]) && Value(t[1..i]) <= Uint64Max
    ensures ParseInt64(t) == 0
  {
    var body := t[1..];
    assert body[..i - 1] == t[1..i];
    assert body[i - 1] == t[i];
    assert body[..0] == [];
    JunkAfterDigits(body, 0, i - 1);
  }

  lemma {:induction false} JunkAfterDigits(t: string, j: nat, i: nat)
    requires j <= i < |t| && !IsDigit(t[i])
    requires AllDigits(t[..i]) && Value(t[..i]) <= Uint64Max
    ensures AllDigits(t[..j]) && Value(t[..j]) <= Uint64Max
    ensures ParseDigits(t, j, Value(t[..j])) == SyntaxError
    decreases i - j
  {
    assert t[..i][..j] == t[..j];
    ValuePrefix(t[..i], j);
    if j < i {
      assert t[..i][..j + 1] == t[..j + 1];
      ValuePrefix(t[..i], j + 1);
      assert t[..j + 1][..j] == t[..j];
      assert t[j] == t[..i][j];
      JunkAfterDigits(t, j + 1, i);
    }
  }

  // ---------------------------------------------------------------------------
  // extractKeysCount

  /**
   * The integer between the first `keys=` and the next `,` of a keyspace line; 0 when
   * either is missing, and whatever strconv.ParseInt yields for the text in between.
   */
  function ExtractKeysCount(info: string): (n: Int64)
    ensures (forall k | 0 <= k <= |info| :: !OccursAt(info, "keys=", k)) ==> n == 0
  {
    var parts := SplitN2(info, "keys=");
    if |parts| != 2 then 0
    else
      var p := SplitN2(parts[1], ",");
      if |p| != 2 then 0
      else ParseInt64(p[0])
  }

  /** `keys=` does not start anywhere inside the text before it. */
  predicate FirstKeysAfter(prefix: string)
  {
    forall k | 0 <= k < |prefix| :: !OccursAt(prefix + "keys=", "keys=", k)
  }

  /** After the first `keys=`, the text up to the next `,` is what gets parsed. */
  lemma ExtractField(prefix: string, t: string, rest: string)
    requires FirstKeysAfter(prefix) && ',' !in t
    ensures ExtractKeysCount(prefix + "keys=" + t + "," + rest) == ParseInt64(t)
  {
    var info := prefix + "keys=" + (t + "," + rest);
    assert prefix + "keys=" + t + "," + rest == info;
    SplitAt(prefix, "keys=", t + "," + rest);
    NoOccurrence(t, ',');
    forall k | 0 <= k < |t|
      ensures !OccursAt(t + ",", ",", k)
    {
      assert (t + ",")[k] == t[k];
    }
    SplitAt(t, ",", rest);
  }

  /** With no `,` after `keys=`, the count is 0 even when digits are there. */
  lemma ExtractNoComma(prefix: string, t: string)
    requires FirstKeysAfter(prefix) && ',' !in t
    ensures ExtractKeysCount(prefix + "keys=" + t) == 0
  {
    SplitAt(prefix, "keys=", t);
    NoOccurrence(t, ',');
  }

  /** The count written as a decimal between `keys=` and `,` is read back. */
  lemma ExtractRoundTrip(prefix: string, n: Int64, rest: string)
    requires FirstKeysAfter(prefix)
    ensures ExtractKeysCount(prefix + "keys=" + FormatInt(n) + "," + rest) == n
  {
    ExtractField(prefix, FormatInt(n), rest);
    ParseFormat(n);
  }

  /** The keyspace line quoted next to the summation loop yields 15500. */
  lemma ExtractExample(info: string)
    requires info == "db0:keys=15500,expires=15500,avg_ttl=27438570"
    ensures ExtractKeysCount(info) == 15500
  {
    ExampleShape(info);
    assert FormatInt(15500) == "15500";
    FirstKeysAfterDb0();
    ExtractRoundTrip("db0:", 15500, "expires=15500,avg_ttl=27438570");
  }

  lemma FirstKeysAfterDb0()
    ensures FirstKeysAfter("db0:")
  {
    assert "db0:" + "keys=" == "db0:keys=";
    forall k | 0 <= k < 4
      ensures !OccursAt("db0:keys=", "keys=", k)
    {
      assert "db0:keys="[k] != 'k';
      assert "db0:keys="[k..k + 5][0] == "db0:keys="[k];
    }
  }

  lemma ExampleShape(info: string)
    requires info == "db0:keys=15500,expires=15500,avg_ttl=27438570"
    ensures info == "db0:" + "keys=" + "15500" + "," + "expires=15500,avg_ttl=27438570"
  {
  }

  // ---------------------------------------------------------------------------
  // The keysN summation in updateRedisInfo

  /** The entries that are summed: a `db*` key whose value holds `keys=`. */
  predicate Counted(key: string, value: string)
  {
    HasPrefix(key, "db") && Contains(value, "keys=")
  }

  /** What one entry adds to keysN. */
  function Contribution(key: string, value: string): int
  {
    if Counted(key, value) then ExtractKeysCount(value) else 0
  }

  /** The mathematical sum of the contributions of the given entries, in no particular order. */
  ghost function SumOver(info: map<string, string>, keys: set<string>): int
    requires keys <= info.Keys
    decreases keys
  {
    if keys == {} then 0
    else
      var k :| k in keys;
      Contribution(k, info[k]) + SumOver(info, keys - {k})
  }

  /** The sum does not depend on which entry is taken first. */
  lemma {:induction false} SumOverRemove(info: map<string, string>, keys: set<string>, k: string)
    requires keys <= info.Keys && k in keys
    ensures SumOver(info, keys) == Contribution(k, info[k]) + SumOver(info, keys - {k})
    decreases keys
  {
    var j :| j in keys && SumOver(info, keys) == Contribution(j, info[j]) + SumOver(info, keys - {j});
    if j != k {
      SumOverRemove(info, keys - {j}, k);
      SumOverRemove(info, keys - {k}, j);
      assert keys - {j} - {k} == keys - {k} - {j};
    }
  }

  /** The sum over the whole INFO map. */
  ghost function KeysTotal(info: map<string, string>): int
  {
    SumOver(info, info.Keys)
  }

  /** Two maps that agree on the given keys have the same sum over them. */
  lemma {:induction false} SumOverAgree(m1: map<string, string>, m2: map<string, string>, keys: set<string>)
    requires keys <= m1.Keys && keys <= m2.Keys
    requires forall k | k in keys :: m1[k] == m2[k]
    ensures SumOver(m1, keys) == SumOver(m2, keys)
    decreases keys
  {
    if keys != {} {
      var k :| k in keys;
      SumOverRemove(m1, keys, k);
      SumOverRemove(m2, keys, k);
      SumOverAgree(m1, m2, keys - {k});
    }
  }

  /**
   * A new entry adds its extracted count to keysN when its key starts with `db` and
   * its value holds `keys=`, and adds nothing otherwise.
   */
  lemma KeysTotalInsert(info: map<string, string>, key: string, value: string)
    requires key !in info
    ensures KeysTotal(info[key := value]) == KeysTotal(info) + (if Counted(key, value) then ExtractKeysCount(value) else 0)
  {
    var m := info[key := value];
    SumOverRemove(m, m.Keys, key);
    assert m.Keys - {key} == info.Keys;
    SumOverAgree(m, info, info.Keys);
  }

  /** The contribution of every entry of the map, fixed before the loop starts. */
  ghost method Amounts(info: map<string, string>) returns (amount: map<string, int>)
    ensures amount.Keys == info.Keys
    ensures forall k {:trigger Contribution(k, info[k])} | k in info :: amount[k] == Contribution(k, info[k])
  {
    amount := map k | k in info :: Contribution(k, info[k]);
  }

  /** The sum of the amounts of the keys in the order visited. */
  ghost function SumSeq(amount: map<string, int>, seen: seq<string>): int
    requires forall k | k in seen :: k in amount
  {
    if seen == [] then 0
    else
      var last := seen[|seen| - 1];
      SumSeq(amount, seen[..|seen| - 1]) + amount[last]
  }

  lemma SumSeqSnoc(amount: map<string, int>, seen: seq<string>, key: string)
    requires forall k | k in seen :: k in amount
    requires key in amount
    ensures SumSeq(amount, seen + [key]) == SumSeq(amount, seen) + amount[key]
  {
    assert (seen + [key])[..|seen|] == seen;
  }

  /** No key is visited twice. */
  ghost predicate Distinct(seen: seq<string>)
  {
    forall i, j | 0 <= i < j < |seen| :: seen[i] != seen[j]
  }

  /** Visiting every key once, in any order, sums the contributions of the whole map. */
  lemma {:induction false} SumSeqIsSumOver(info: map<string, string>, amount: map<string, int>, seen: seq<string>, keys: set<string>)
    requires keys <= info.Keys && amount.Keys == info.Keys
    requires forall k | k in info :: amount[k] == Contribution(k, info[k])
    requires Distinct(seen) && forall k :: k in seen <==> k in keys
    ensures SumSeq(amount, seen) == SumOver(info, keys)
    decreases |seen|
  {
    if seen != [] {
      var last := seen[|seen| - 1];
      var init := seen[..|seen| - 1];
      assert forall k :: k in init <==> k in keys - {last} by {
        forall k ensures k in init <==> k in keys - {last} {
          if k in init {
            var i :| 0 <= i < |init| && init[i] == k;
            assert seen[i] == k && seen[|seen| - 1] == last;
          }
          if k in keys - {last} {
            var i :| 0 <= i < |seen| && seen[i] == k;
            assert init[i] == k;
          }
        }
      }
      SumSeqIsSumOver(info, amount, init, keys - {last});
      SumOverRemove(info, keys, last);
    } else {
      assert keys == {};
    }
  }

  /** The loop of updateRedisInfo over the INFO map, in Go's unspecified map order. */
  method SumKeys(info: map<string, string>) returns (keysN: Int64)
    ensures keysN == Wrap64(KeysTotal(info))
  {
    ghost var amount := Amounts(info);
    keysN := 0;
    var rest := info.Keys;
    ghost var seen: seq<string> := [];
    while rest != {}
      invariant rest <= info.Keys && Distinct(seen)
      invariant forall k :: k in seen <==> k in info.Keys && k !in rest
      invariant keysN == Wrap64(SumSeq(amount, seen))
      decreases rest
    {
      var key :| key in rest;
      var value := info[key];
      ghost var before := keysN;
      if Counted(key, value) {
        keysN := Wrap64(keysN + ExtractKeysCount(value));
      }
      Accumulate(amount, seen, key, value, before, keysN);
      seen := seen + [key];
      rest := rest - {key};
    }
    SumSeqIsSumOver(info, amount, seen, info.Keys);
  }

  /**
   * One pass of the loop body: the guarded `keysN += extractKeysCount(v)`, wrapped like
   * Go's int64 addition, keeps keysN equal to the wrapped sum of the keys visited.
   */
  lemma Accumulate(amount: map<string, int>, seen: seq<string>, key: string, value: string, before: Int64, after: Int64)
    requires forall k | k in seen :: k in amount
    requires key in amount && amount[key] == Contribution(key, value)
    requires before == Wrap64(SumSeq(amount, seen))
    requires after == if Counted(key, value) then Wrap64(before + ExtractKeysCount(value)) else before
    ensures after == Wrap64(SumSeq(amount, seen + [key]))
  {
    SumSeqSnoc(amount, seen, key);
    WrapAdd(SumSeq(amount, seen), amount[key]);
  }
}
