/**
 * The slice of PHP's value semantics that the orchestrator's decisions depend on:
 * truthiness (`if ($x)`, `!empty($x)`, `(bool)$x`), the `(string)` and `(int)`
 * casts, the string functions `strpos`, `str_replace`, `trim`, `rtrim`, `implode`,
 * and ordered arrays (`$a[$k] = $v`, `isset($a[$k])`, `unset($a[$k])`).
 */
module Php {
  import opened Wrappers

  /** An array key. PHP's folding of numeric string keys into integers is not modelled. */
  datatype Key = IntKey(n: int) | StrKey(name: string)

  /** A PHP value, without floats, objects and resources. */
  datatype Value =
    | Null
    | Bool(b: bool)
    | Int(i: int)
    | Str(s: string)
    | Arr(entries: seq<Entry<Value>>)

  /** One key/value pair of an ordered PHP array. */
  datatype Entry<V> = Entry(key: Key, val: V)

  // ---------------------------------------------------------------------------
  // Truthiness
  // ---------------------------------------------------------------------------

  /** A string is falsy exactly when it is "" or "0". */
  predicate StrTruthy(s: string) {
    s != "" && s != "0"
  }

  /** PHP's conversion to bool. */
  predicate Truthy(v: Value) {
    match v
    case Null => false
    case Bool(b) => b
    case Int(i) => i != 0
    case Str(s) => StrTruthy(s)
    case Arr(es) => |es| > 0
  }

  /** `isset($a[$k]) && $a[$k]` and `!empty($a[$k])` on a possibly missing entry. */
  predicate Given(o: Option<Value>) {
    o.Some? && Truthy(o.value)
  }

  /** `isset($a[$k])`: the entry exists and is not null. */
  predicate IsSet(o: Option<Value>) {
    o.Some? && o.value != Null
  }

  /** A nullable string parameter that is truthy: not null, not "" and not "0". */
  predicate OptStrTruthy(o: Option<string>) {
    o.Some? && StrTruthy(o.value)
  }

  // ---------------------------------------------------------------------------
  // Decimal rendering and the (int) cast
  // ---------------------------------------------------------------------------

  predicate IsDigit(c: char) {
    '0' <= c <= '9'
  }

  predicate AllDigits(s: string) {
    forall i :: 0 <= i < |s| ==> IsDigit(s[i])
  }

  function DigitChar(d: nat): (c: char)
    requires d < 10
    ensures IsDigit(c)
  {
    ('0' as int + d) as char
  }

  function DigitValue(c: char): nat
    requires IsDigit(c)
  {
    c as int - '0' as int
  }

  /** Decimal digits of `n`, without leading zeros. */
  function NatToString(n: nat): (s: string)
    ensures |s| > 0 && AllDigits(s)
    decreases n
  {
    if n < 10 then [DigitChar(n)] else NatToString(n / 10) + [DigitChar(n % 10)]
  }

  /** `(string)$i` for an integer. */
  function IntToString(i: int): string {
    if i < 0 then "-" + NatToString(-i) else NatToString(i)
  }

  /** The number a string of decimal digits denotes. */
  function DigitsValue(s: string): nat
    requires AllDigits(s)
    decreases |s|
  {
    if |s| == 0 then 0 else DigitsValue(s[..|s| - 1]) * 10 + DigitValue(s[|s| - 1])
  }

  /** Length of the longest prefix of `s` made of decimal digits. */
  function LeadingDigits(s: string): (n: nat)
    ensures n <= |s| && AllDigits(s[..n])
    ensures n < |s| ==> !IsDigit(s[n])
    decreases |s|
  {
    if |s| > 0 && IsDigit(s[0]) then 1 + LeadingDigits(s[1..]) else 0
  }

  predicate IsSpace(c: char) {
    c == ' ' || c == '\t' || c == '\n' || c == '\r' || c == '\U{B}' || c == '\U{C}'
  }

  function SkipSpaces(s: string): (t: string)
    ensures |t| <= |s| && t == s[|s| - |t|..]
    ensures |t| > 0 ==> !IsSpace(t[0])
    decreases |s|
  {
    if |s| > 0 && IsSpace(s[0]) then SkipSpaces(s[1..]) else s
  }

  /** The leading integer of a string, as `(int)"  -12abc"` reads it (exponent forms not modelled). */
  function ParseIntPrefix(s: string): int {
    var t := SkipSpaces(s);
    if |t| > 0 && (t[0] == '-' || t[0] == '+') then
      var u := t[1..];
      var v: int := DigitsValue(u[..LeadingDigits(u)]);
      if t[0] == '-' then -v else v
    else
      DigitsValue(t[..LeadingDigits(t)])
  }

  /** PHP's `(string)` conversion. */
  function ToStr(v: Value): string {
    match v
    case Null => ""
    case Bool(b) => if b then "1" else ""
    case Int(i) => IntToString(i)
    case Str(s) => s
    case Arr(_) => "Array"
  }

  /** PHP's `(int)` conversion. */
  function IntCast(v: Value): int {
    match v
    case Null => 0
    case Bool(b) => if b then 1 else 0
    case Int(i) => i
    case Str(s) => ParseIntPrefix(s)
    case Arr(es) => if |es| > 0 then 1 else 0
  }

  lemma {:induction false} DigitsValueOfNatToString(n: nat)
    ensures DigitsValue(NatToString(n)) == n
    decreases n
  {
    var s := NatToString(n);
    if n < 10 {
      assert s[..|s| - 1] == [];
    } else {
      DigitsValueOfNatToString(n / 10);
      assert s[..|s| - 1] == NatToString(n / 10);
    }
  }

  lemma LeadingDigitsOfAllDigits(s: string)
    requires AllDigits(s)
    ensures LeadingDigits(s) == |s|
    decreases |s|
  {
    if |s| > 0 {
      LeadingDigitsOfAllDigits(s[1..]);
    }
  }

  /** Casting the decimal rendering of an integer back with `(int)` gives the integer again. */
  lemma {:induction false} IntCastRoundTrip(i: int)
    ensures IntCast(Str(IntToString(i))) == i
  {
    var s := IntToString(i);
    var m: nat := if i < 0 then -i else i;
    var d := NatToString(m);
    DigitsValueOfNatToString(m);
    LeadingDigitsOfAllDigits(d);
    assert !IsSpace(s[0]);
    assert SkipSpaces(s) == s;
    if i < 0 {
      assert s[1..] == d;
      assert d[..|d|] == d;
    } else {
      assert s == d;
      assert !(d[0] == '-' || d[0] == '+');
      assert d[..|d|] == d;
    }
  }

  // ---------------------------------------------------------------------------
  // Strings
  // ---------------------------------------------------------------------------

  predicate StartsWith(s: string, prefix: string) {
    |prefix| <= |s| && s[..|prefix|] == prefix
  }

  /** `pat` occurs in `s` starting at position `i`. */
  predicate OccursAt(s: string, pat: string, i: nat) {
    i + |pat| <= |s| && s[i..i + |pat|] == pat
  }

  ghost predicate Occurs(s: string, pat: string) {
    exists i: nat :: OccursAt(s, pat, i)
  }

  /** `strpos($s, $c)` for a one-character needle: the first position of `c`, if any. */
  function IndexOf(s: string, c: char): (r: Option<nat>)
    ensures r.Some? ==> r.value < |s| && s[r.value] == c && c !in s[..r.value]
    ensures r.None? <==> c !in s
    decreases |s|
  {
    if |s| == 0 then None
    else if s[0] == c then Some(0)
    else
      var r := IndexOf(s[1..], c);
      if r.Some? then
        assert s[..r.value + 1] == [s[0]] + s[1..][..r.value];
        Some(r.value + 1)
      else
        assert s == [s[0]] + s[1..];
        None
  }

  /** A character's first occurrence is the one `IndexOf` finds. */
  lemma IndexOfFirst(s: string, ch: char, k: nat)
    requires k < |s| && s[k] == ch && ch !in s[..k]
    ensures IndexOf(s, ch) == Some(k)
  {
  }

  /** `substr($s, $start)` for a non-negative start: the empty string once `start` passes the end. */
  function SubstrFrom(s: string, start: nat): (r: string)
    ensures start <= |s| ==> r == s[start..]
    ensures start > |s| ==> r == ""
  {
    if start <= |s| then s[start..] else ""
  }

  /** `str_replace($pat, '', $s)`: every non-overlapping occurrence, scanned left to right, removed. */
  function StrRemove(s: string, pat: string): string
    decreases |s|
  {
    if |pat| == 0 || |s| < |pat| then s
    else if s[..|pat|] == pat then StrRemove(s[|pat|..], pat)
    else [s[0]] + StrRemove(s[1..], pat)
  }

  /** A string in which the pattern does not occur is left unchanged by `str_replace`. */
  lemma {:induction false} StrRemoveAbsent(s: string, pat: string)
    requires !Occurs(s, pat)
    ensures StrRemove(s, pat) == s
    decreases |s|
  {
    if |pat| == 0 || |s| < |pat| {
    } else {
      assert !OccursAt(s, pat, 0);
      assert s[..|pat|] != pat;
      forall i: nat | OccursAt(s[1..], pat, i)
        ensures false
      {
        assert s[1..][i..i + |pat|] == s[i + 1..i + 1 + |pat|];
        assert OccursAt(s, pat, i + 1);
      }
      StrRemoveAbsent(s[1..], pat);
      assert s == [s[0]] + s[1..];
    }
  }

  /** Stripping a leading `pat` from `pat + rest`, when `rest` holds no further occurrence, leaves `rest`. */
  lemma StrRemovePrefix(pat: string, rest: string)
    requires |pat| > 0 && !Occurs(rest, pat)
    ensures StrRemove(pat + rest, pat) == rest
  {
    var s := pat + rest;
    assert s[..|pat|] == pat;
    assert s[|pat|..] == rest;
    StrRemoveAbsent(rest, pat);
  }

  /** The characters PHP's `trim` strips by default. */
  predicate IsTrimChar(c: char) {
    c == ' ' || c == '\t' || c == '\n' || c == '\r' || c == '\U{0}' || c == '\U{B}'
  }

  /** `ltrim($s)` with the default character list. */
  function TrimLeft(s: string): (r: string)
    ensures |r| <= |s| && r == s[|s| - |r|..]
    ensures forall i :: 0 <= i < |s| - |r| ==> IsTrimChar(s[i])
    ensures |r| > 0 ==> !IsTrimChar(r[0])
    decreases |s|
  {
    if |s| > 0 && IsTrimChar(s[0]) then TrimLeft(s[1..]) else s
  }

  /** `rtrim($s)` with the default character list. */
  function TrimRight(s: string): (r: string)
    ensures |r| <= |s| && r == s[..|r|]
    ensures forall i :: |r| <= i < |s| ==> IsTrimChar(s[i])
    ensures |r| > 0 ==> !IsTrimChar(r[|r| - 1])
    decreases |s|
  {
    if |s| > 0 && IsTrimChar(s[|s| - 1]) then TrimRight(s[..|s| - 1]) else s
  }

  /** `trim($s)`. */
  function Trim(s: string): string {
    TrimRight(TrimLeft(s))
  }

  /** `rtrim($s, '/\\')`: trailing forward and back slashes removed. */
  function RTrimSlashes(s: string): (r: string)
    ensures |r| <= |s| && r == s[..|r|]
    ensures forall i :: |r| <= i < |s| ==> s[i] == '/' || s[i] == '\\'
    ensures |r| > 0 ==> r[|r| - 1] != '/' && r[|r| - 1] != '\\'
    decreases |s|
  {
    if |s| > 0 && (s[|s| - 1] == '/' || s[|s| - 1] == '\\') then RTrimSlashes(s[..|s| - 1]) else s
  }

  /** `implode($sep, $parts)`. */
  function Implode(sep: string, parts: seq<string>): string
    decreases |parts|
  {
    if |parts| == 0 then ""
    else if |parts| == 1 then parts[0]
    else parts[0] + sep + Implode(sep, parts[1..])
  }

  /** Imploding two non-empty lists one after the other puts one separator between them. */
  lemma {:induction false} ImplodeAppend(sep: string, a: seq<string>, b: seq<string>)
    requires |a| > 0 && |b| > 0
    ensures Implode(sep, a + b) == Implode(sep, a) + sep + Implode(sep, b)
    decreases |a|
  {
    if |a| == 1 {
      assert (a + b)[1..] == b;
    } else {
      ImplodeAppend(sep, a[1..], b);
      assert (a + b)[1..] == a[1..] + b;
    }
  }

  /** `explode($sep, $s)` with a one-character separator: the pieces between separators, in order. */
  function Explode(sep: char, s: string): (parts: seq<string>)
    ensures |parts| > 0
    ensures forall i :: 0 <= i < |parts| ==> sep !in parts[i]
    decreases |s|
  {
    match IndexOf(s, sep)
    case None => [s]
    case Some(i) => [s[..i]] + Explode(sep, s[i + 1..])
  }

  /** Joining the pieces of `explode` with the separator gives the string back. */
  lemma {:induction false} ImplodeExplode(sep: char, s: string)
    ensures Implode([sep], Explode(sep, s)) == s
    decreases |s|
  {
    match IndexOf(s, sep)
    case None =>
    case Some(i) =>
      ImplodeExplode(sep, s[i + 1..]);
      var rest := Explode(sep, s[i + 1..]);
      assert ([s[..i]] + rest)[1..] == rest;
      assert s == s[..i] + [sep] + s[i + 1..];
  }

  /** Splitting joined pieces that hold no separator gives the pieces back. */
  lemma {:induction false} ExplodeImplode(sep: char, parts: seq<string>)
    requires |parts| > 0
    requires forall i :: 0 <= i < |parts| ==> sep !in parts[i]
    ensures Explode(sep, Implode([sep], parts)) == parts
    decreases |parts|
  {
    var k := |parts[0]|;
    if |parts| == 1 {
      assert Implode([sep], parts) == parts[0];
    } else {
      var t := Implode([sep], parts[1..]);
      var s := parts[0] + [sep] + t;
      assert Implode([sep], parts) == s;
      assert s[..k] == parts[0] && s[k] == sep && s[k + 1..] == t;
      IndexOfFirst(s, sep, k);
      assert Explode(sep, s) == [parts[0]] + Explode(sep, t);
      assert forall i :: 0 <= i < |parts| - 1 ==> parts[1..][i] == parts[i + 1];
      ExplodeImplode(sep, parts[1..]);
      assert parts == [parts[0]] + parts[1..];
    }
  }

  // ---------------------------------------------------------------------------
  // Ordered arrays
  // ---------------------------------------------------------------------------

  function Keys<V>(es: seq<Entry<V>>): seq<Key> {
    seq(|es|, i requires 0 <= i < |es| => es[i].key)
  }

  predicate UniqueKeys<V>(es: seq<Entry<V>>) {
    forall i, j :: 0 <= i < j < |es| ==> es[i].key != es[j].key
  }

  /** `$a[$k] ?? null` with the miss kept apart from a stored null. */
  function Lookup<V>(es: seq<Entry<V>>, k: Key): (r: Option<V>)
    ensures r.Some? <==> exists i :: 0 <= i < |es| && es[i].key == k
    ensures r.Some? ==> exists i :: 0 <= i < |es| && es[i] == Entry(k, r.value)
    decreases |es|
  {
    if |es| == 0 then None
    else if es[0].key == k then Some(es[0].val)
    else
      var r := Lookup(es[1..], k);
      assert forall i :: 1 <= i < |es| ==> es[i] == es[1..][i - 1];
      r
  }

  /** Looking up in an array extended by one entry: earlier entries win, the new one answers for its own key. */
  lemma {:induction false} LookupSnoc<V>(es: seq<Entry<V>>, e: Entry<V>, k: Key)
    ensures Lookup(es + [e], k) == if Lookup(es, k).Some? then Lookup(es, k) else if e.key == k then Some(e.val) else None
    decreases |es|
  {
    if |es| > 0 {
      assert (es + [e])[1..] == es[1..] + [e];
      LookupSnoc(es[1..], e, k);
    }
  }

  /** `$a[$k] = $v`: an existing key keeps its position, a new key goes last. */
  function Assign<V>(es: seq<Entry<V>>, k: Key, v: V): (r: seq<Entry<V>>)
    ensures |es| <= |r| <= |es| + 1
    ensures forall i :: 0 <= i < |es| ==> r[i].key == es[i].key
    ensures |r| == |es| + 1 ==> r[|es|] == Entry(k, v)
    decreases |es|
  {
    if |es| == 0 then [Entry(k, v)]
    else if es[0].key == k then [Entry(k, v)] + es[1..]
    else [es[0]] + Assign(es[1..], k, v)
  }

  /**
   * `array_merge` on arrays with string keys: the entries of `b` assigned over `a` in
   * order, so `b` wins on a shared key. The renumbering of integer keys is not modelled.
   */
  function Merge<V>(a: seq<Entry<V>>, b: seq<Entry<V>>): (r: seq<Entry<V>>)
    ensures UniqueKeys(b) ==> forall k :: Lookup(r, k) == if Lookup(b, k).Some? then Lookup(b, k) else Lookup(a, k)
    decreases |b|
  {
    if |b| == 0 then a
    else
      var init := b[..|b| - 1];
      var e := b[|b| - 1];
      var m := Merge(a, init);
      var r := Assign(m, e.key, e.val);
      assert b == init + [e];
      forall k | UniqueKeys(b)
        ensures Lookup(r, k) == if Lookup(b, k).Some? then Lookup(b, k) else Lookup(a, k)
      {
        LookupSnoc(init, e, k);
        AssignThenLookup(m, e.key, e.val, k);
        assert UniqueKeys(init);
        if k == e.key {
          assert Lookup(init, k).None?;
        }
      }
      r
  }

  /** `unset($a[$k])`. */
  function Unset<V>(es: seq<Entry<V>>, k: Key): (r: seq<Entry<V>>)
    ensures forall i :: 0 <= i < |r| ==> r[i].key != k
    ensures |r| <= |es|
    decreases |es|
  {
    if |es| == 0 then []
    else if es[0].key == k then Unset(es[1..], k)
    else [es[0]] + Unset(es[1..], k)
  }

  /** After `$a[$k] = $v`, reading `$a[$k]` gives `v` and every other key reads as before. */
  lemma {:induction false} AssignThenLookup<V>(es: seq<Entry<V>>, k: Key, v: V, k': Key)
    ensures Lookup(Assign(es, k, v), k') == if k' == k then Some(v) else Lookup(es, k')
    decreases |es|
  {
    if |es| == 0 {
    } else if es[0].key == k {
      var r := Assign(es, k, v);
      if k' != k && es[0].key != k' {
        assert r[1..] == es[1..];
      }
    } else {
      var r := Assign(es, k, v);
      assert r[1..] == Assign(es[1..], k, v);
      AssignThenLookup(es[1..], k, v, k');
    }
  }

  /** Assignment never introduces a second entry for a key. */
  lemma {:induction false} AssignKeepsKeysUnique<V>(es: seq<Entry<V>>, k: Key, v: V)
    requires UniqueKeys(es)
    ensures UniqueKeys(Assign(es, k, v))
    decreases |es|
  {
    if |es| == 0 {
    } else if es[0].key == k {
    } else {
      AssignKeepsKeysUnique(es[1..], k, v);
      var r := Assign(es, k, v);
      var t := Assign(es[1..], k, v);
      assert r == [es[0]] + t;
      forall j | 0 <= j < |t|
        ensures t[j].key != es[0].key
      {
        if j < |es| - 1 {
          assert t[j].key == es[j + 1].key;
        }
      }
    }
  }

  /** A key is present exactly when looking it up finds an entry. */
  lemma KeysLookup<V>(es: seq<Entry<V>>, k: Key)
    ensures k in Keys(es) <==> Lookup(es, k).Some?
  {
    if k in Keys(es) {
      var i :| 0 <= i < |es| && Keys(es)[i] == k;
      assert es[i].key == k;
    }
    if Lookup(es, k).Some? {
      var i :| 0 <= i < |es| && es[i].key == k;
      assert Keys(es)[i] == k;
    }
  }

  /** The keys after `$a[$k] = $v`: the old ones and `k`. */
  lemma AssignKeys<V>(es: seq<Entry<V>>, k: Key, v: V, x: Key)
    ensures x in Keys(Assign(es, k, v)) <==> x == k || x in Keys(es)
  {
    AssignThenLookup(es, k, v, x);
    KeysLookup(Assign(es, k, v), x);
    KeysLookup(es, x);
  }

  /** After `unset($a[$k])`, `k` reads as missing and every other key reads as before. */
  lemma {:induction false} UnsetThenLookup<V>(es: seq<Entry<V>>, k: Key, k': Key)
    ensures Lookup(Unset(es, k), k') == if k' == k then None else Lookup(es, k')
    decreases |es|
  {
    if |es| > 0 {
      UnsetThenLookup(es[1..], k, k');
      if es[0].key != k {
        assert Unset(es, k)[1..] == Unset(es[1..], k);
      }
    }
  }

  /** `array_unique` on a list: the first occurrence of each value, in order. */
  function Unique<T(==, !new)>(xs: seq<T>): (r: seq<T>)
    ensures forall x :: x in r <==> x in xs
    ensures forall i, j :: 0 <= i < j < |r| ==> r[i] != r[j]
    ensures |r| <= |xs|
    decreases |xs|
  {
    if |xs| == 0 then []
    else
      var init := Unique(xs[..|xs| - 1]);
      var x := xs[|xs| - 1];
      assert xs == xs[..|xs| - 1] + [x];
      if x in init then init else init + [x]
  }
}
