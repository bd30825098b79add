/** The session knob catalog and the conversions the pipeline applies to a
    catalog entry's textual default value. */
module Catalog {
  import opened Base

  /** The knob types of the catalog; `OtherType` stands for any code outside the six known ones. */
  datatype VarType =
    | StringType
    | IntegerType
    | RealType
    | BoolType
    | EnumType
    | TimestampType
    | OtherType(code: int)

  /** One entry of the session knob catalog. `enumvals` is the comma-separated list of
      an enum knob's values; `minval` and `maxval` are the declared range. */
  datatype KnobEntry = KnobEntry(
    name: string,
    vartype: VarType,
    default: string,
    minval: real,
    maxval: real,
    enumvals: string)

  /** A value in a configuration dictionary. */
  datatype KnobValue = BoolVal(b: bool) | IntVal(i: int) | RealVal(r: real) | StrVal(s: string)

  /** A configuration: knob name to value, as the Python dicts the pipeline builds. */
  type Config = map<string, KnobValue>

  /** The catalog's knob names, in catalog order. */
  function Names(knobs: seq<KnobEntry>): (names: seq<string>)
    ensures |names| == |knobs|
    ensures forall i :: 0 <= i < |knobs| ==> names[i] == knobs[i].name
  {
    seq(|knobs|, i requires 0 <= i < |knobs| => knobs[i].name)
  }

  /** Inverse of `Split`: the parts with one separator between neighbours. */
  function Join(parts: seq<string>, sep: char): string {
    if |parts| == 0 then ""
    else if |parts| == 1 then parts[0]
    else parts[0] + [sep] + Join(parts[1..], sep)
  }

  /** Python `s.split(sep)` for a one-character separator: never empty, no part holds
      the separator, and joining the parts gives `s` back. */
  function Split(s: string, sep: char): (parts: seq<string>)
    ensures |parts| >= 1
    ensures forall k :: 0 <= k < |parts| ==> sep !in parts[k]
    ensures Join(parts, sep) == s
    decreases |s|
  {
    match IndexOf(s, sep)
    case None => [s]
    case Some(i) =>
      var rest := Split(s[i + 1..], sep);
      assert ([s[..i]] + rest)[1..] == rest;
      assert s == s[..i] + [sep] + s[i + 1..];
      [s[..i]] + rest
  }

  /** The first separator in `a + [sep] + b` is the one after `a` when `a` holds none. */
  lemma FirstSeparator(a: string, sep: char, b: string)
    requires sep !in a
    ensures IndexOf(a + [sep] + b, sep) == Some(|a|)
  {
    var s := a + [sep] + b;
    assert s[|a|] == sep;
  }

  /** Splitting a join of separator-free parts gives the parts back. */
  lemma {:induction false} SplitJoin(parts: seq<string>, sep: char)
    requires |parts| >= 1
    requires forall k :: 0 <= k < |parts| ==> sep !in parts[k]
    ensures Split(Join(parts, sep), sep) == parts
  {
    if |parts| == 1 {
      assert IndexOf(parts[0], sep) == None;
    } else {
      var s := Join(parts, sep);
      var rest := Join(parts[1..], sep);
      FirstSeparator(parts[0], sep, rest);
      assert s[..|parts[0]|] == parts[0];
      assert s[|parts[0]| + 1..] == rest;
      SplitJoin(parts[1..], sep);
      assert parts == [parts[0]] + parts[1..];
    }
  }

  function LowerChar(c: char): char {
    if 'A' <= c <= 'Z' then (c as int + 32) as char else c
  }

  /** Python `str.lower()` restricted to ASCII letters. */
  function ToLower(s: string): (t: string)
    ensures |t| == |s|
  {
    seq(|s|, i requires 0 <= i < |s| => LowerChar(s[i]))
  }

  /** The spellings a boolean default is read as true from; "0" is among them. */
  const TruthyTokens: seq<string> := ["on", "true", "yes", "0"]

  /** The constant a knob missing from a data set is filled with: an enum default's
      first position among the comma-separated values, a boolean default's truth
      (1 or 0), otherwise the default read as a number; 0 wherever the conversion
      fails. `parseFloat` stands for Python's `float()`, None where it raises. */
  function DefaultValue(knob: KnobEntry, parseFloat: string -> Option<real>): (v: real)
    ensures knob.vartype == EnumType && knob.default in Split(knob.enumvals, ',') ==>
      var vals := Split(knob.enumvals, ',');
      v == v.Floor as real && 0 <= v.Floor < |vals| &&
      vals[v.Floor] == knob.default && knob.default !in vals[..v.Floor]
    ensures knob.vartype == EnumType && knob.default !in Split(knob.enumvals, ',') ==> v == 0.0
    ensures knob.vartype == BoolType ==>
      (v == 1.0 || v == 0.0) && (v == 1.0 <==> ToLower(knob.default) in TruthyTokens)
    ensures knob.vartype != EnumType && knob.vartype != BoolType ==>
      v == (if parseFloat(knob.default).Some? then parseFloat(knob.default).value else 0.0)
  {
    match knob.vartype
    case EnumType =>
      (match IndexOf(Split(knob.enumvals, ','), knob.default)
       case Some(i) => i as real
       case None => 0.0)
    case BoolType => if ToLower(knob.default) in TruthyTokens then 1.0 else 0.0
    case _ =>
      (match parseFloat(knob.default)
       case Some(x) => x
       case None => 0.0)
  }

  /** An enum knob whose values are listed as `vals` is filled with the first
      position of its default among them. */
  lemma {:induction false} EnumDefaultPosition(knob: KnobEntry, vals: seq<string>, i: nat,
                                               parseFloat: string -> Option<real>)
    requires knob.vartype == EnumType
    requires |vals| >= 1 && forall k :: 0 <= k < |vals| ==> ',' !in vals[k]
    requires knob.enumvals == Join(vals, ',')
    requires i < |vals| && vals[i] == knob.default && knob.default !in vals[..i]
    ensures DefaultValue(knob, parseFloat) == i as real
  {
    SplitJoin(vals, ',');
  }

  /** "read-committed" among "read-uncommitted,read-committed" fills the column with 1. */
  lemma EnumDefaultExample(parseFloat: string -> Option<real>)
    ensures DefaultValue(KnobEntry("isolation", EnumType, "read-committed", 0.0, 1.0,
                                   "read-uncommitted,read-committed"), parseFloat) == 1.0
  {
    var vals := ["read-uncommitted", "read-committed"];
    assert Join(vals[1..], ',') == "read-committed";
    assert Join(vals, ',') == "read-uncommitted,read-committed";
    assert vals[..1] == ["read-uncommitted"];
    EnumDefaultPosition(KnobEntry("isolation", EnumType, "read-committed", 0.0, 1.0,
                                  "read-uncommitted,read-committed"), vals, 1, parseFloat);
  }

  /** Boolean defaults: "ON" and "0" read as true (the "0" spelling included as the
      source lists it), "off" as false. */
  lemma BoolDefaultExamples(parseFloat: string -> Option<real>)
    ensures DefaultValue(KnobEntry("b", BoolType, "ON", 0.0, 1.0, ""), parseFloat) == 1.0
    ensures DefaultValue(KnobEntry("b", BoolType, "0", 0.0, 1.0, ""), parseFloat) == 1.0
    ensures DefaultValue(KnobEntry("b", BoolType, "off", 0.0, 1.0, ""), parseFloat) == 0.0
  {
    assert ToLower("ON") == "on";
    assert ToLower("0") == "0";
    assert ToLower("off") == "off";
    assert "off" != "on" && "off" != "true" && "off" != "yes" && "off" != "0";
  }
}
