/** The slice of JavaScript's value model the application's logic depends on:
    truthiness, `String(v)`, `Number(v)`, and plain objects with their
    insertion-ordered keys (`o[k]`, `o[k] = v`, `{...a, ...b}`).

    Numbers are integers here: every number the modelled code compares,
    rounds or prints is a whole number, and `NaN` is the `None` of `ToNumber`. */
module Js {
  import opened Seqs
  import opened Text

  datatype Value =
    | Undefined
    | Null
    | Bool(b: bool)
    | Num(n: int)
    | Str(s: string)
    | Arr(items: seq<Value>)
    | Object(fields: seq<(string, Value)>)

  /** `Boolean(v)`: the falsy values are undefined, null, false, 0 and "". */
  predicate Truthy(v: Value)
  {
    match v
    case Undefined => false
    case Null => false
    case Bool(b) => b
    case Num(n) => n != 0
    case Str(s) => s != ""
    case Arr(_) => true
    case Object(_) => true
  }

  /** `String(v)`; an array renders as its elements joined by ",", with
      undefined and null elements rendered empty. */
  function ToJsString(v: Value): string
    decreases v, 0
  {
    match v
    case Undefined => "undefined"
    case Null => "null"
    case Bool(b) => if b then "true" else "false"
    case Num(n) => IntToString(n)
    case Str(s) => s
    case Arr(items) => JoinValues(items, ",")
    case Object(_) => "[object Object]"
  }

  /** `items.join(sep)` on an array of values. */
  function JoinValues(items: seq<Value>, sep: string): string
    decreases items
  {
    Join(seq(|items|, i requires 0 <= i < |items| => ElementString(items[i])), sep)
  }

  function ElementString(v: Value): string
    decreases v, 1
  {
    if v.Undefined? || v.Null? then "" else ToJsString(v)
  }

  /** `String(a + b)`: string concatenation when either operand is a string,
      an array or an object (which convert to their string forms first), numeric
      addition otherwise, which yields NaN when either side is not a number. */
  function PlusString(a: Value, b: Value): string
  {
    if a.Str? || a.Arr? || a.Object? || b.Str? || b.Arr? || b.Object? then ToJsString(a) + ToJsString(b)
    else match (ToNumber(a), ToNumber(b))
      case (Some(x), Some(y)) => IntToString(x + y)
      case _ => "NaN"
  }

  /** `Number(s)` for a string: surrounding white space is ignored, an empty
      string is 0, and an optionally signed run of decimal digits is its value. */
  function StringToNumber(s: string): Option<int>
  {
    var t := Trim(s);
    if t == "" then Some(0) else ParseInt(t)
  }

  /** `Number(v)`, with `None` standing for NaN. An array converts through its
      string form, as JavaScript's ToPrimitive does; a plain object's string
      form, "[object Object]", is never a number. */
  function ToNumber(v: Value): (r: Option<int>)
    ensures v.Num? ==> r == Some(v.n)
    ensures v.Undefined? ==> r.None?
    ensures v.Null? ==> r == Some(0)
    ensures v.Bool? ==> r == Some(if v.b then 1 else 0)
    ensures v.Object? ==> r.None?
    ensures v.Str? && Trim(v.s) == "" ==> r == Some(0)
    ensures v.Str? && Trim(v.s) != "" ==> r == ParseInt(Trim(v.s))
  {
    match v
    case Undefined => None
    case Null => Some(0)
    case Bool(b) => Some(if b then 1 else 0)
    case Num(n) => Some(n)
    case Str(s) => StringToNumber(s)
    case Arr(_) => StringToNumber(ToJsString(v))
    case Object(_) => None
  }

  /** Converting a number to a string and back gives the number. */
  lemma NumberStringRoundTrip(n: int)
    ensures ToNumber(Str(ToJsString(Num(n)))) == Some(n)
  {
    var s := IntToString(n);
    IntRoundTrip(n);
    assert |s| > 0 && !IsSpace(s[0]) && !IsSpace(s[|s| - 1]);
    TrimNoSpaceEnds(s);
  }

  /** A string that neither starts nor ends with a space trims to itself. */
  lemma TrimNoSpaceEnds(s: string)
    requires |s| > 0 && !IsSpace(s[0]) && !IsSpace(s[|s| - 1])
    ensures Trim(s) == s
  {
    var lo, hi :| 0 <= lo <= hi <= |s| && Trim(s) == s[lo..hi]
                  && (forall k :: 0 <= k < lo ==> IsSpace(s[k]))
                  && (forall k :: hi <= k < |s| ==> IsSpace(s[k]));
    assert lo == 0;
    assert hi == |s|;
  }

  /** A plain object: its own properties in insertion order. */
  type Obj = seq<(string, Value)>

  predicate HasKey(o: Obj, k: string)
  {
    exists i :: 0 <= i < |o| && o[i].0 == k
  }

  lemma HasKeyCons(x: (string, Value), rest: Obj, k: string)
    ensures HasKey([x] + rest, k) <==> x.0 == k || HasKey(rest, k)
  {
    var o := [x] + rest;
    if x.0 == k {
      assert o[0].0 == k;
    }
    if HasKey(rest, k) {
      var i :| 0 <= i < |rest| && rest[i].0 == k;
      assert o[i + 1] == rest[i];
    }
    if HasKey(o, k) && x.0 != k {
      var i :| 0 <= i < |o| && o[i].0 == k;
      assert rest[i - 1] == o[i];
    }
  }

  /** No property name occurs twice, as in every JavaScript object. */
  predicate DistinctKeys(o: Obj)
  {
    forall i, j :: 0 <= i < j < |o| ==> o[i].0 != o[j].0
  }

  /** The property names, in insertion order (`Object.keys`). */
  function Keys(o: Obj): (r: seq<string>)
    ensures |r| == |o|
    ensures forall i :: 0 <= i < |o| ==> r[i] == o[i].0
  {
    seq(|o|, i requires 0 <= i < |o| => o[i].0)
  }

  /** An object has exactly the properties its key list names. */
  lemma HasKeyIffListed(o: Obj, k: string)
    ensures HasKey(o, k) <==> k in Keys(o)
  {
    if k in Keys(o) {
      var i :| 0 <= i < |o| && Keys(o)[i] == k;
      assert o[i].0 == k;
    }
  }

  /** Position of property `k`, if present. */
  function KeyIndex(o: Obj, k: string): (r: Option<nat>)
    ensures r.Some? ==> r.value < |o| && o[r.value].0 == k
    ensures r.Some? ==> forall j :: 0 <= j < r.value ==> o[j].0 != k
    ensures r.None? <==> !HasKey(o, k)
    decreases |o|
  {
    if |o| == 0 then None
    else if o[0].0 == k then Some(0)
    else
      HasKeyCons(o[0], o[1..], k);
      assert o == [o[0]] + o[1..];
      match KeyIndex(o[1..], k)
      case None => None
      case Some(i) => Some(i + 1)
  }

  /** `o[k]`: undefined when the property is absent. */
  function Get(o: Obj, k: string): (v: Value)
    ensures !HasKey(o, k) ==> v == Undefined
    ensures DistinctKeys(o) ==> forall i :: 0 <= i < |o| && o[i].0 == k ==> v == o[i].1
  {
    match KeyIndex(o, k)
    case None => Undefined
    case Some(i) => o[i].1
  }

  /** `o[k] = v`: an existing property keeps its place, a new one goes last. */
  function Set(o: Obj, k: string, v: Value): (r: Obj)
    ensures Get(r, k) == v
    ensures forall k' :: k' != k ==> Get(r, k') == Get(o, k')
  {
    match KeyIndex(o, k)
    case Some(i) =>
      SetInPlace(o, k, v, i);
      o[i := (k, v)]
    case None =>
      SetAppended(o, k, v);
      o + [(k, v)]
  }

  /** The property names after `o[k] = v`: the old ones, in their order,
      followed by `k` when it is new. */
  lemma SetKeys(o: Obj, k: string, v: Value)
    ensures var r := Set(o, k, v);
            && (forall k' :: HasKey(r, k') <==> HasKey(o, k') || k' == k)
            && (HasKey(o, k) ==> Keys(r) == Keys(o))
            && (!HasKey(o, k) ==> Keys(r) == Keys(o) + [k])
            && (DistinctKeys(o) ==> DistinctKeys(r))
  {
    match KeyIndex(o, k)
    case Some(i) => SetInPlace(o, k, v, i);
    case None => SetAppended(o, k, v);
  }

  lemma SetInPlace(o: Obj, k: string, v: Value, i: nat)
    requires KeyIndex(o, k) == Some(i)
    ensures var r := o[i := (k, v)];
            && Get(r, k) == v
            && (forall k' :: k' != k ==> Get(r, k') == Get(o, k'))
            && (forall k' :: HasKey(r, k') <==> HasKey(o, k') || k' == k)
            && Keys(r) == Keys(o)
            && (DistinctKeys(o) ==> DistinctKeys(r))
  {
    var r := o[i := (k, v)];
    KeyIndexIs(r, k, i);
    forall k' | k' != k ensures Get(r, k') == Get(o, k') {
      SameKeyIndex(o, r, k');
    }
    forall k' ensures HasKey(r, k') <==> HasKey(o, k') || k' == k {
      if HasKey(o, k') {
        var j :| 0 <= j < |o| && o[j].0 == k';
        assert r[j].0 == k';
      }
    }
    assert Keys(r) == Keys(o);
  }

  lemma SetAppended(o: Obj, k: string, v: Value)
    requires !HasKey(o, k)
    ensures var r := o + [(k, v)];
            && Get(r, k) == v
            && (forall k' :: k' != k ==> Get(r, k') == Get(o, k'))
            && (forall k' :: HasKey(r, k') <==> HasKey(o, k') || k' == k)
            && Keys(r) == Keys(o) + [k]
            && (DistinctKeys(o) ==> DistinctKeys(r))
  {
    var r := o + [(k, v)];
    assert r[|o|].0 == k;
    forall k' | k' != k ensures Get(r, k') == Get(o, k') {
      SameKeyIndex(o, r, k');
    }
    forall j | 0 <= j < |o| ensures r[j].0 != k {
      assert r[j] == o[j];
    }
    KeyIndexIs(r, k, |o|);
    forall k' ensures HasKey(r, k') <==> HasKey(o, k') || k' == k {
      if HasKey(o, k') {
        var j :| 0 <= j < |o| && o[j].0 == k';
        assert r[j].0 == k';
      }
    }
    assert Keys(r) == Keys(o) + [k];
  }

  /** Two objects that agree on which positions hold `k` and what they hold
      give the same `o[k]`. */
  lemma SameKeyIndex(o: Obj, r: Obj, k: string)
    requires |o| <= |r|
    requires forall j :: 0 <= j < |o| ==> (o[j].0 == k <==> r[j].0 == k)
    requires forall j :: 0 <= j < |o| && o[j].0 == k ==> r[j] == o[j]
    requires forall j :: |o| <= j < |r| ==> r[j].0 != k
    ensures Get(r, k) == Get(o, k)
  {
    if HasKey(o, k) {
      var i := KeyIndex(o, k).value;
      KeyIndexIs(r, k, i);
    } else {
      forall j | 0 <= j < |r| ensures r[j].0 != k {
        if j < |o| {
          assert o[j].0 != k;
        }
      }
    }
  }

  /** The first position holding `k` is what `KeyIndex` finds. */
  lemma KeyIndexIs(o: Obj, k: string, i: nat)
    requires i < |o| && o[i].0 == k
    requires forall j :: 0 <= j < i ==> o[j].0 != k
    ensures KeyIndex(o, k) == Some(i)
  {
    assert HasKey(o, k);
  }

  /** Objects with the same property names in the same places find every
      property at the same position. */
  lemma SameKeysIndex(o: Obj, r: Obj)
    requires Keys(r) == Keys(o)
    ensures forall k :: KeyIndex(r, k) == KeyIndex(o, k)
  {
    forall k ensures KeyIndex(r, k) == KeyIndex(o, k) {
      if HasKey(o, k) {
        var i := KeyIndex(o, k).value;
        assert Keys(r)[i] == Keys(o)[i];
        forall j | 0 <= j < i ensures r[j].0 != k {
          assert Keys(r)[j] == Keys(o)[j];
        }
        KeyIndexIs(r, k, i);
      } else {
        forall j | 0 <= j < |r| ensures r[j].0 != k {
          assert Keys(r)[j] == Keys(o)[j];
        }
      }
    }
  }

  /** Properties of a concatenation: the first object's shadow the second's. */
  lemma GetAppend(a: Obj, b: Obj, k: string)
    ensures HasKey(a + b, k) <==> HasKey(a, k) || HasKey(b, k)
    ensures Get(a + b, k) == if HasKey(a, k) then Get(a, k) else Get(b, k)
  {
    var o := a + b;
    if HasKey(a, k) {
      var i := KeyIndex(a, k).value;
      assert o[i] == a[i];
      forall j | 0 <= j < i ensures o[j].0 != k {
        assert o[j] == a[j];
      }
      KeyIndexIs(o, k, i);
    } else {
      forall j | 0 <= j < |a| ensures o[j].0 != k {
        assert o[j] == a[j];
      }
      if HasKey(b, k) {
        var i := KeyIndex(b, k).value;
        assert o[|a| + i] == b[i];
        forall j | |a| <= j < |a| + i ensures o[j].0 != k {
          assert o[j] == b[j - |a|];
        }
        KeyIndexIs(o, k, |a| + i);
      } else {
        forall j | |a| <= j < |o| ensures o[j].0 != k {
          assert o[j] == b[j - |a|];
        }
      }
    }
  }

  /** Concatenating objects with no property in common keeps names distinct. */
  lemma DistinctAppend(a: Obj, b: Obj)
    requires DistinctKeys(a) && DistinctKeys(b)
    requires forall k :: HasKey(a, k) ==> !HasKey(b, k)
    ensures DistinctKeys(a + b)
  {
    var o := a + b;
    forall i, j | 0 <= i < j < |o| ensures o[i].0 != o[j].0 {
      if j < |a| {
        assert o[i] == a[i] && o[j] == a[j];
      } else if i >= |a| {
        assert o[i] == b[i - |a|] && o[j] == b[j - |a|];
      } else {
        assert o[i] == a[i] && o[j] == b[j - |a|];
        assert HasKey(a, a[i].0);
        assert HasKey(b, b[j - |a|].0);
      }
    }
  }

  /** `{...a, ...b}`: `b`'s properties are assigned over `a`'s, in order. */
  function Spread(a: Obj, b: Obj): (r: Obj)
    requires DistinctKeys(b)
    ensures forall k :: Get(r, k) == if HasKey(b, k) then Get(b, k) else Get(a, k)
    ensures forall k :: HasKey(r, k) <==> HasKey(a, k) || HasKey(b, k)
    ensures DistinctKeys(a) ==> DistinctKeys(r)
    decreases |b|
  {
    if |b| == 0 then a
    else
      assert b == [b[0]] + b[1..];
      forall k ensures HasKey(b, k) <==> b[0].0 == k || HasKey(b[1..], k) {
        HasKeyCons(b[0], b[1..], k);
      }
      assert !HasKey(b[1..], b[0].0);
      SetKeys(a, b[0].0, b[0].1);
      Spread(Set(a, b[0].0, b[0].1), b[1..])
  }

  /** `v?.k`: a plain object's property, and undefined for every other value
      (the keys read through this are never inherited ones such as `length`). */
  function Member(v: Value, k: string): (r: Value)
    ensures !v.Object? ==> r == Undefined
    ensures v.Object? ==> r == Get(v.fields, k)
  {
    if v.Object? then Get(v.fields, k) else Undefined
  }
}
