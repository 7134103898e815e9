/**
 JSON values as Python holds them: objects remember the order of their keys. `Denote` forgets
 that order, so two values mean the same JSON exactly when their denotations are equal.
 */
module Json {
  import opened Options

  datatype Json =
    | Null
    | Bool(b: bool)
    | Num(literal: string)
    | Str(s: string)
    | Arr(items: seq<Json>)
    | Obj(fields: seq<Field>)

  datatype Field = Field(key: string, value: Json)

  /** A JSON value up to the order of object keys. */
  datatype Meaning =
    | MNull
    | MBool(b: bool)
    | MNum(literal: string)
    | MStr(s: string)
    | MArr(items: seq<Meaning>)
    | MObj(fields: map<string, Meaning>)

  function Denote(j: Json): Meaning
    decreases j, 1
  {
    match j
    case Null => MNull
    case Bool(b) => MBool(b)
    case Num(l) => MNum(l)
    case Str(s) => MStr(s)
    case Arr(items) => MArr(DenoteItems(items))
    case Obj(fields) => MObj(DenoteFields(fields))
  }

  function DenoteItems(items: seq<Json>): (r: seq<Meaning>)
    ensures |r| == |items|
    decreases items, 0
  {
    if items == [] then [] else [Denote(items[0])] + DenoteItems(items[1..])
  }

  function DenoteFields(fields: seq<Field>): map<string, Meaning>
    decreases fields, 0
  {
    if fields == [] then map[] else DenoteFields(fields[1..])[fields[0].key := Denote(fields[0].value)]
  }

  predicate HasKey(fields: seq<Field>, key: string) {
    exists i :: 0 <= i < |fields| && fields[i].key == key
  }

  predicate UniqueKeys(fields: seq<Field>) {
    forall i, j :: 0 <= i < j < |fields| ==> fields[i].key != fields[j].key
  }

  /** No object, at any depth, holds a key twice. */
  predicate WellFormed(j: Json)
    decreases j
  {
    match j
    case Arr(items) => forall i :: 0 <= i < |items| ==> WellFormed(items[i])
    case Obj(fields) => UniqueKeys(fields) && forall i :: 0 <= i < |fields| ==> WellFormed(fields[i].value)
    case _ => true
  }

  /** `mapping.get(key)`, where a missing key gives null. */
  function Get(fields: seq<Field>, key: string): Json
    decreases |fields|
  {
    if fields == [] then Null else if fields[0].key == key then fields[0].value else Get(fields[1..], key)
  }

  // ---------- Facts about denotations ----------

  lemma {:induction false} DenoteItemsAt(items: seq<Json>, i: nat)
    requires i < |items|
    ensures DenoteItems(items)[i] == Denote(items[i])
    decreases |items|
  {
    if i > 0 {
      DenoteItemsAt(items[1..], i - 1);
    }
  }

  lemma {:induction false} DenoteFieldsKeys(fields: seq<Field>, key: string)
    ensures key in DenoteFields(fields) <==> HasKey(fields, key)
    decreases |fields|
  {
    if fields != [] {
      DenoteFieldsKeys(fields[1..], key);
      if HasKey(fields, key) && fields[0].key != key {
        var i :| 0 <= i < |fields| && fields[i].key == key;
        assert fields[1..][i - 1].key == key;
      }
    }
  }

  lemma {:induction false} DenoteFieldsAt(fields: seq<Field>, i: nat)
    requires i < |fields| && UniqueKeys(fields)
    ensures fields[i].key in DenoteFields(fields) && DenoteFields(fields)[fields[i].key] == Denote(fields[i].value)
    decreases |fields|
  {
    if i > 0 {
      assert fields[1..][i - 1] == fields[i];
      DenoteFieldsAt(fields[1..], i - 1);
    }
  }

  lemma {:induction false} GetIsDenoted(fields: seq<Field>, key: string)
    ensures Denote(Get(fields, key)) ==
            if key in DenoteFields(fields) then DenoteFields(fields)[key] else MNull
    decreases |fields|
  {
    if fields != [] && fields[0].key != key {
      GetIsDenoted(fields[1..], key);
    }
  }

  lemma {:induction false} GetMisses(fields: seq<Field>, key: string)
    requires !HasKey(fields, key)
    ensures Get(fields, key) == Null
    decreases |fields|
  {
    if fields != [] {
      assert fields[0].key != key;
      assert forall i :: 0 <= i < |fields[1..]| ==> fields[1..][i] == fields[i + 1];
      GetMisses(fields[1..], key);
    }
  }
}
