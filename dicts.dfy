/** Records as the enrichment code sees them: Python dicts with string keys,
    which remember the order in which keys were first inserted, holding
    strings, integers, floats or None. */
module Dicts {
  import opened Strings

  /** A field value. `Float(units, places)` is the decimal units * 10^-places
      (a rating of 3.5 is `Float(35, 1)`, 2021.0 is `Float(2021, 0)`); NaN is the
      float that pandas uses for a blank cell. */
  datatype Value = Null | NaN | Int(i: int) | Float(units: int, places: nat) | Text(s: string)

  /** Python's `type(v) is float`. */
  predicate IsFloat(v: Value)
  {
    v.Float? || v.NaN?
  }

  function Pow10(n: nat): (r: nat)
    ensures r >= 1
  {
    if n == 0 then 1 else 10 * Pow10(n - 1)
  }

  /** Python's `int(v)`: an int as it is, a float truncated toward zero, a
      string of digits (surrounding whitespace allowed) read in base ten; `None`
      where Python raises (None, NaN, any other string). */
  function PyInt(v: Value): (r: Option<int>)
    ensures v.Int? ==> r == Some(v.i)
    ensures v.Null? || v.NaN? ==> r.None?
    ensures v.Text? ==> (r.Some? <==> IsDigits(Strip(v.s)))
    ensures v.Float? ==> r.Some?
  {
    match v
    case Int(i) => Some(i)
    case Float(u, p) =>
      var m := Pow10(p);
      if u >= 0 then Some(u / m) else Some(-((-u) / m))
    case Text(s) => if IsDigits(Strip(s)) then Some(DigitsValue(Strip(s))) else None
    case _ => None
  }

  /** `int` of a float truncates toward zero: the result is the whole part of
      the float, rounded toward zero. */
  lemma PyIntTruncates(v: Value)
    requires v.Float?
    ensures v.units >= 0 ==> 0 <= PyInt(v).value * Pow10(v.places) <= v.units < (PyInt(v).value + 1) * Pow10(v.places)
    ensures v.units < 0 ==> (PyInt(v).value - 1) * Pow10(v.places) < v.units <= PyInt(v).value * Pow10(v.places) <= 0
  {
    var m := Pow10(v.places);
    if v.units >= 0 {
      DivBounds(v.units, m);
    } else {
      var q := (-v.units) / m;
      DivBounds(-v.units, m);
      assert (-q - 1) * m == -((q + 1) * m) && -q * m == -(q * m);
    }
  }

  lemma DivBounds(u: nat, m: nat)
    requires m >= 1
    ensures 0 <= (u / m) * m <= u < (u / m + 1) * m
  {
    assert u == (u / m) * m + u % m;
  }

  predicate Distinct(ks: seq<string>)
  {
    forall i, j :: 0 <= i < j < |ks| ==> ks[i] != ks[j]
  }

  datatype DictRep = DictRep(keys: seq<string>, vals: map<string, Value>)

  /** Keys in insertion order, each once, and exactly the keys of `vals`. */
  predicate WellFormed(d: DictRep)
  {
    && Distinct(d.keys)
    && (forall k :: k in d.vals ==> k in d.keys)
    && (forall k :: k in d.keys ==> k in d.vals)
  }

  type Dict = d: DictRep | WellFormed(d) witness DictRep([], map[])

  const Empty: Dict := DictRep([], map[])

  /** Python's `d[k] = v`: a new key goes to the end, an existing key keeps its place. */
  function Put(d: Dict, k: string, v: Value): (r: Dict)
    ensures r.vals == d.vals[k := v]
    ensures r.keys == if k in d.vals then d.keys else d.keys + [k]
  {
    if k in d.vals then DictRep(d.keys, d.vals[k := v])
    else DictRep(d.keys + [k], d.vals[k := v])
  }

  /** Two distinct keys put into an empty dict, in this order. */
  lemma TwoPuts(a: string, b: string, x: Value, y: Value)
    requires a != b
    ensures Put(Put(Empty, a, x), b, y).keys == [a, b]
    ensures Put(Put(Empty, a, x), b, y).vals == map[a := x, b := y]
  {
    var d := Put(Empty, a, x);
    assert d.keys == [a] && d.vals == map[a := x];
    assert b !in d.vals;
    PairAppend(a, b);
  }

  lemma PairAppend(a: string, b: string)
    ensures [a] + [b] == [a, b]
  {
  }

  /** Three distinct keys put into an empty dict, in this order. */
  lemma ThreePuts(a: string, b: string, c: string, x: Value, y: Value, z: Value)
    requires a != b && a != c && b != c
    ensures Put(Put(Put(Empty, a, x), b, y), c, z).keys == [a, b, c]
    ensures Put(Put(Put(Empty, a, x), b, y), c, z).vals == map[a := x, b := y, c := z]
  {
    TwoPuts(a, b, x, y);
  }

  /** A key none of the three puts names is not in the result. */
  lemma ThreePutsLack(a: string, b: string, c: string, x: Value, y: Value, z: Value, k: string)
    requires a != b && a != c && b != c
    requires k != a && k != b && k != c
    ensures k !in Put(Put(Put(Empty, a, x), b, y), c, z).vals
  {
    ThreePuts(a, b, c, x, y, z);
  }

  /** `d[ks[0]] = vs[0]`, then `d[ks[1]] = vs[1]`, and so on. */
  function PutAll(d: Dict, ks: seq<string>, vs: seq<Value>): Dict
    requires |ks| == |vs|
    decreases |ks|
  {
    if |ks| == 0 then d else PutAll(Put(d, ks[0], vs[0]), ks[1..], vs[1..])
  }

  /** Keys that are all new are appended in the order they are filled in. */
  lemma {:induction false} PutAllKeys(d: Dict, ks: seq<string>, vs: seq<Value>)
    requires |ks| == |vs| && Distinct(d.keys + ks)
    ensures PutAll(d, ks, vs).keys == d.keys + ks
    decreases |ks|
  {
    if |ks| == 0 {
      assert d.keys + ks == d.keys;
    } else {
      var whole := d.keys + ks;
      assert whole[|d.keys|] == ks[0];
      assert forall i :: 0 <= i < |d.keys| ==> d.keys[i] == whole[i];
      assert ks[0] !in d.keys;
      var d' := Put(d, ks[0], vs[0]);
      assert d'.keys + ks[1..] == whole;
      PutAllKeys(d', ks[1..], vs[1..]);
    }
  }

  /** With distinct keys, each key holds the value filled in for it, and the
      keys not filled in keep theirs. */
  lemma {:induction false} PutAllValues(d: Dict, ks: seq<string>, vs: seq<Value>)
    requires |ks| == |vs| && Distinct(ks)
    ensures forall i :: 0 <= i < |ks| ==> ks[i] in PutAll(d, ks, vs).vals && PutAll(d, ks, vs).vals[ks[i]] == vs[i]
    ensures forall k :: k in d.vals && k !in ks ==> k in PutAll(d, ks, vs).vals && PutAll(d, ks, vs).vals[k] == d.vals[k]
    decreases |ks|
  {
    if |ks| > 0 {
      DistinctTail(ks);
      var d' := Put(d, ks[0], vs[0]);
      PutAllValues(d', ks[1..], vs[1..]);
      var r := PutAll(d, ks, vs);
      assert r == PutAll(d', ks[1..], vs[1..]);
      forall i | 0 <= i < |ks| ensures ks[i] in r.vals && r.vals[ks[i]] == vs[i] {
        if i == 0 {
          assert ks[0] in d'.vals && d'.vals[ks[0]] == vs[0];
        } else {
          assert ks[i] == ks[1..][i - 1] && vs[i] == vs[1..][i - 1];
        }
      }
    }
  }

  /** The keys of `ks` that are not in `s`, in order. */
  function Outside(ks: seq<string>, s: set<string>): (r: seq<string>)
    ensures forall k :: k in r <==> k in ks && k !in s
    ensures |r| <= |ks|
  {
    if |ks| == 0 then []
    else (if ks[0] in s then [] else [ks[0]]) + Outside(ks[1..], s)
  }

  /** The keys of `ks` that are in `s`, in order. */
  function Inside(ks: seq<string>, s: set<string>): (r: seq<string>)
    ensures forall k :: k in r <==> k in ks && k in s
  {
    if |ks| == 0 then []
    else (if ks[0] in s then [ks[0]] else []) + Inside(ks[1..], s)
  }

  lemma ConcatAssoc(x: seq<string>, y: seq<string>, z: seq<string>)
    ensures x + (y + z) == (x + y) + z
  {
  }

  /** `Outside` of `a + b` peels off the head of a non-empty `a`. */
  lemma OutsideUnfold(a: seq<string>, b: seq<string>, s: set<string>)
    requires |a| > 0
    ensures Outside(a + b, s) == (if a[0] in s then [] else [a[0]]) + Outside(a[1..] + b, s)
  {
    assert (a + b)[0] == a[0] && (a + b)[1..] == a[1..] + b;
  }

  lemma {:induction false} OutsideAppend(a: seq<string>, b: seq<string>, s: set<string>)
    ensures Outside(a + b, s) == Outside(a, s) + Outside(b, s)
  {
    if |a| > 0 {
      var h := if a[0] in s then [] else [a[0]];
      OutsideUnfold(a, b, s);
      OutsideAppend(a[1..], b, s);
      assert Outside(a, s) == h + Outside(a[1..], s);
      ConcatAssoc(h, Outside(a[1..], s), Outside(b, s));
    } else {
      assert a + b == b;
    }
  }

  /** `Inside` of `a + b` peels off the head of a non-empty `a`. */
  lemma InsideUnfold(a: seq<string>, b: seq<string>, s: set<string>)
    requires |a| > 0
    ensures Inside(a + b, s) == (if a[0] in s then [a[0]] else []) + Inside(a[1..] + b, s)
  {
    assert (a + b)[0] == a[0] && (a + b)[1..] == a[1..] + b;
  }

  lemma {:induction false} InsideAppend(a: seq<string>, b: seq<string>, s: set<string>)
    ensures Inside(a + b, s) == Inside(a, s) + Inside(b, s)
  {
    if |a| > 0 {
      var h := if a[0] in s then [a[0]] else [];
      InsideUnfold(a, b, s);
      InsideAppend(a[1..], b, s);
      assert Inside(a, s) == h + Inside(a[1..], s);
      ConcatAssoc(h, Inside(a[1..], s), Inside(b, s));
    } else {
      assert a + b == b;
    }
  }

  /** Excluding one more key that does not occur changes nothing. */
  lemma {:induction false} OutsideIgnores(ks: seq<string>, s: set<string>, k: string)
    requires k !in ks
    ensures Outside(ks, s + {k}) == Outside(ks, s)
  {
    if |ks| > 0 {
      OutsideIgnores(ks[1..], s, k);
    }
  }

  /** Excluding keys that do not occur changes nothing. */
  lemma {:induction false} OutsideDisjoint(ks: seq<string>, s: set<string>, t: set<string>)
    requires forall k :: k in ks ==> k !in t
    ensures Outside(ks, s + t) == Outside(ks, s)
  {
    if |ks| > 0 {
      OutsideDisjoint(ks[1..], s, t);
    }
  }

  lemma {:induction false} OutsideNone(ks: seq<string>, s: set<string>)
    requires forall k :: k in ks ==> k !in s
    ensures Outside(ks, s) == ks
  {
    if |ks| > 0 {
      OutsideNone(ks[1..], s);
    }
  }

  lemma {:induction false} DistinctFilters(ks: seq<string>, s: set<string>)
    requires Distinct(ks)
    ensures Distinct(Outside(ks, s)) && Distinct(Inside(ks, s))
  {
    if |ks| > 0 {
      DistinctFilters(ks[1..], s);
    }
  }

  /** Python's `d.pop(k)` for a key that is there: the key leaves the order too. */
  function Pop(d: Dict, k: string): (r: Dict)
    requires k in d.vals
    ensures r.vals == d.vals - {k}
    ensures r.keys == Outside(d.keys, {k})
  {
    DistinctFilters(d.keys, {k});
    DictRep(Outside(d.keys, {k}), d.vals - {k})
  }

  /** `d[k] = src[k]` for each `k` of `ks` in turn. */
  function UpdateWith(d: Dict, ks: seq<string>, src: map<string, Value>): (r: Dict)
    requires forall k :: k in ks ==> k in src
    ensures forall k :: k in r.vals <==> k in d.vals || k in ks
    ensures forall k :: k in r.vals ==> r.vals[k] == if k in ks then src[k] else d.vals[k]
    decreases |ks|
  {
    if |ks| == 0 then d
    else
      var r := UpdateWith(Put(d, ks[0], src[ks[0]]), ks[1..], src);
      assert forall k :: k in ks <==> k == ks[0] || k in ks[1..];
      r
  }

  /** Python's `d.update(other)`. */
  function Update(d: Dict, other: Dict): (r: Dict)
    ensures r.vals == d.vals + other.vals
  {
    UpdateVals(d, other);
    UpdateWith(d, other.keys, other.vals)
  }

  lemma UpdateVals(d: Dict, other: Dict)
    ensures UpdateWith(d, other.keys, other.vals).vals == d.vals + other.vals
  {
    UpdateValsAt(d, other);
  }

  lemma UpdateValsAt(d: Dict, other: Dict)
    ensures var r := UpdateWith(d, other.keys, other.vals);
            forall k :: (k in r.vals <==> k in d.vals + other.vals) && (k in r.vals ==> r.vals[k] == (d.vals + other.vals)[k])
  {
    var r := UpdateWith(d, other.keys, other.vals);
    forall k ensures (k in r.vals <==> k in d.vals + other.vals) && (k in r.vals ==> r.vals[k] == (d.vals + other.vals)[k]) {
      assert k in other.keys <==> k in other.vals;
    }
  }

  /** The key order `update` produces, given the keys already present. */
  function AppendNew(keys: seq<string>, present: set<string>, ks: seq<string>): seq<string>
    decreases |ks|
  {
    if |ks| == 0 then keys
    else if ks[0] in present then AppendNew(keys, present, ks[1..])
    else AppendNew(keys + [ks[0]], present + {ks[0]}, ks[1..])
  }

  lemma {:induction false} UpdateWithOrder(d: Dict, ks: seq<string>, src: map<string, Value>)
    requires forall k :: k in ks ==> k in src
    ensures UpdateWith(d, ks, src).keys == AppendNew(d.keys, d.vals.Keys, ks)
    decreases |ks|
  {
    if |ks| > 0 {
      UpdateWithStep(d, ks, src);
      UpdateWithOrder(Put(d, ks[0], src[ks[0]]), ks[1..], src);
    }
  }

  /** One step of `UpdateWith` and of `AppendNew` consume the same key. */
  lemma UpdateWithStep(d: Dict, ks: seq<string>, src: map<string, Value>)
    requires |ks| > 0 && forall k :: k in ks ==> k in src
    ensures UpdateWith(d, ks, src) == UpdateWith(Put(d, ks[0], src[ks[0]]), ks[1..], src)
    ensures AppendNew(d.keys, d.vals.Keys, ks)
         == AppendNew(Put(d, ks[0], src[ks[0]]).keys, Put(d, ks[0], src[ks[0]]).vals.Keys, ks[1..])
  {
    var d' := Put(d, ks[0], src[ks[0]]);
    if ks[0] !in d.vals {
      assert d'.vals.Keys == d.vals.Keys + {ks[0]};
    } else {
      assert d'.vals.Keys == d.vals.Keys;
    }
  }

  lemma {:induction false} AppendNewIsOutside(keys: seq<string>, present: set<string>, ks: seq<string>)
    requires Distinct(ks)
    ensures AppendNew(keys, present, ks) == keys + Outside(ks, present)
    decreases |ks|
  {
    if |ks| == 0 {
      assert keys + [] == keys;
    } else {
      var k, rest := ks[0], ks[1..];
      DistinctTail(ks);
      var tail := Outside(rest, present);
      if k in present {
        assert Outside(ks, present) == [] + tail;
        AppendNewIsOutside(keys, present, rest);
        assert [] + tail == tail;
      } else {
        assert Outside(ks, present) == [k] + tail;
        AppendNewIsOutside(keys + [k], present + {k}, rest);
        OutsideIgnores(rest, present, k);
        assert (keys + [k]) + tail == keys + ([k] + tail);
      }
    }
  }

  /** `update` keeps the existing keys in place and appends the new ones in the
      order the update lists them. */
  lemma UpdateWithKeys(d: Dict, ks: seq<string>, src: map<string, Value>)
    requires forall k :: k in ks ==> k in src
    requires Distinct(ks)
    ensures UpdateWith(d, ks, src).keys == d.keys + Outside(ks, d.vals.Keys)
  {
    UpdateWithOrder(d, ks, src);
    AppendNewIsOutside(d.keys, d.vals.Keys, ks);
  }

  lemma DistinctTail(ks: seq<string>)
    requires Distinct(ks) && |ks| > 0
    ensures Distinct(ks[1..]) && ks[0] !in ks[1..]
  {
    forall i | 0 <= i < |ks| - 1 ensures ks[1..][i] != ks[0] {
      assert ks[1..][i] == ks[i + 1];
    }
  }

  /** Only the values `src` gives for `ks` matter. */
  lemma {:induction false} UpdateWithAgrees(d: Dict, ks: seq<string>, m1: map<string, Value>, m2: map<string, Value>)
    requires forall k :: k in ks ==> k in m1 && k in m2 && m1[k] == m2[k]
    ensures UpdateWith(d, ks, m1) == UpdateWith(d, ks, m2)
    decreases |ks|
  {
    if |ks| > 0 {
      UpdateWithAgrees(Put(d, ks[0], m1[ks[0]]), ks[1..], m1, m2);
    }
  }

  lemma {:induction false} UpdateWithSnoc(d: Dict, ks: seq<string>, k: string, src: map<string, Value>)
    requires forall x :: x in ks ==> x in src
    requires k in src
    ensures UpdateWith(d, ks + [k], src) == Put(UpdateWith(d, ks, src), k, src[k])
    decreases |ks|
  {
    if |ks| == 0 {
      assert ks + [k] == [k];
    } else {
      assert (ks + [k])[1..] == ks[1..] + [k];
      UpdateWithSnoc(Put(d, ks[0], src[ks[0]]), ks[1..], k, src);
    }
  }

  // ---- str() and repr() of values, for the error messages ----

  /** `str(v)` of a float with the given decimal value: at least one digit on
      each side of the point. */
  function FloatText(units: int, places: nat): string
  {
    var digits := NatToString(if units < 0 then -units else units);
    var padded := Zeros(places + 1 - |digits|) + digits;
    var point := |padded| - places;
    (if units < 0 then "-" else "") + padded[..point] + "." + (if places == 0 then "0" else padded[point..])
  }

  function Zeros(n: int): (r: string)
    ensures |r| == if n < 0 then 0 else n
    decreases n
  {
    if n <= 0 then "" else "0" + Zeros(n - 1)
  }

  /** Python's `str(v)`, as an f-string renders a value. */
  function PyStr(v: Value): string
  {
    match v
    case Null => "None"
    case NaN => "nan"
    case Int(i) => IntToString(i)
    case Float(u, p) => FloatText(u, p)
    case Text(s) => s
  }

  function HexDigit(d: nat): char
    requires d < 16
  {
    "0123456789abcdef"[d]
  }

  /** One character inside a Python string literal delimited by `quote`. */
  function EscapeChar(c: char, quote: char): string
  {
    if c == quote || c == '\\' then ['\\', c]
    else if c == '\n' then "\\n"
    else if c == '\r' then "\\r"
    else if c == '\t' then "\\t"
    else if c < ' ' || c == '\U{7f}' then "\\x" + [HexDigit(c as int / 16), HexDigit(c as int % 16)]
    else [c]
  }

  function Escape(s: string, quote: char): string
  {
    if |s| == 0 then "" else EscapeChar(s[0], quote) + Escape(s[1..], quote)
  }

  /** Python's `repr(s)`: single quotes unless the text holds a single quote
      and no double quote. */
  function ReprText(s: string): string
  {
    var quote := if '\'' in s && '"' !in s then '"' else '\'';
    [quote] + Escape(s, quote) + [quote]
  }

  function Repr(v: Value): string
  {
    if v.Text? then ReprText(v.s) else PyStr(v)
  }

  function ItemsRepr(ks: seq<string>, vals: map<string, Value>): seq<string>
  {
    if |ks| == 0 then []
    else [ReprText(ks[0]) + ": " + (if ks[0] in vals then Repr(vals[ks[0]]) else "")] + ItemsRepr(ks[1..], vals)
  }

  /** Python's `str(d)` for a dict: `{'key': value, ...}` in key order. */
  function DictRepr(d: Dict): string
  {
    "{" + Join(", ", ItemsRepr(d.keys, d.vals)) + "}"
  }
}
