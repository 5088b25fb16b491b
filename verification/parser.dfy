/** The record parser `parse_sensor_string`: one framed record becomes the
    list of recognised objects and a map from object name to position. */
module Parser {
  import opened Wrappers
  import opened Strings
  import opened Tokenizer

  /** The characters a field's payload is tokenised on. */
  const PayloadDelims: string := "(),=\U{B0}\r\n"

  /** The marker of an object the sensor did not find. */
  const ErrorMarker: string := "#ERR"

  /** Python's `float()` on one token, left abstract: `None` where it raises. */
  type NumParser = string -> Option<real>

  /** One recognised object: x and y in metres, the angle in degrees (the
      source turns it into a yaw in radians, which is not modelled). */
  datatype RecognizedObject = RecognizedObject(name: string, x: real, y: real, angle: real, confidence: real)

  /** One value of the flat map from object name to position. */
  datatype DetectionObj = DetectionObj(name: string, x: real, y: real, angle: real, detected: bool)

  /** The exceptions the parser can raise, one per failing step. */
  datatype ParseError =
    | MissingColon(field: string)              // `general[1]` of a field without ':'
    | MissingToken(field: string, index: nat)  // `info[k]` past the last token
    | BadNumber(field: string, token: string)  // `float()` rejects a token

  /** The text after the last `{`; all of `data` when it has none. */
  function Body(data: string): string
  {
    Last(Split(data, '{'))
  }

  /** The `;`-separated fields of the body, the first one discarded. */
  function Fields(data: string): seq<string>
  {
    Split(Body(data), ';')[1..]
  }

  function Name(field: string): string
  {
    Split(field, ':')[0]
  }

  predicate HasPayload(field: string)
  {
    |Split(field, ':')| >= 2
  }

  /** The text between the first and the second ':' of the field. */
  function Payload(field: string): string
    requires HasPayload(field)
  {
    Split(field, ':')[1]
  }

  /** The non-empty pieces of the payload. */
  function Tokens(payload: string): seq<string>
  {
    NonEmpty(MultiSplit(payload, PayloadDelims))
  }

  /** A field for an object the sensor reported as not found. */
  predicate Skipped(field: string)
  {
    HasPayload(field) && Contains(Payload(field), ErrorMarker)
  }

  /** The first `min(|tokens|, 4)` tokens are numbers and there are at least three. */
  predicate Numeric(tokens: seq<string>, num: NumParser)
  {
    |tokens| >= 3 && forall k :: 0 <= k < |tokens| && k < 4 ==> num(tokens[k]).Some?
  }

  /** `float(info[k])` */
  function NumAt(field: string, tokens: seq<string>, k: nat, num: NumParser): (r: Result<real, ParseError>)
    ensures r.Ok? <==> k < |tokens| && num(tokens[k]).Some?
    ensures r.Ok? ==> r.value == num(tokens[k]).value
  {
    if k >= |tokens| then Err(MissingToken(field, k))
    else match num(tokens[k])
      case None => Err(BadNumber(field, tokens[k]))
      case Some(v) => Ok(v)
  }

  /** The object of a kept field: x and y are the first two tokens over
      1000, the angle the third token, and the confidence the fourth token
      over 100 or 1.0 when there is none; it fails unless the tokens it reads
      are there and are numbers, with the error of the first one to fail in
      the order the source evaluates them. */
  function ParseObject(field: string, name: string, t: seq<string>, num: NumParser)
    : (r: Result<RecognizedObject, ParseError>)
    ensures r.Ok? <==> Numeric(t, num)
    ensures r.Ok? ==>
              && r.value.name == name
              && r.value.x == num(t[0]).value / 1000.0
              && r.value.y == num(t[1]).value / 1000.0
              && r.value.angle == num(t[2]).value
              && r.value.confidence == (if |t| > 3 then num(t[3]).value / 100.0 else 1.0)
  {
    var x :- NumAt(field, t, 0, num);
    var y :- NumAt(field, t, 1, num);
    var angle :- NumAt(field, t, 2, num);
    var confidence :- if |t| > 3 then NumAt(field, t, 3, num) else Ok(100.0);
    Ok(RecognizedObject(name, x / 1000.0, y / 1000.0, angle, confidence / 100.0))
  }

  /** One field: it raises without a ':', contributes nothing when its
      payload holds the error marker, and otherwise yields the object of its
      tokens. */
  function ParseField(field: string, num: NumParser): (r: Result<Option<RecognizedObject>, ParseError>)
    ensures r.Err? && r.error.MissingColon? <==> !HasPayload(field)
    ensures r == Ok(None) <==> Skipped(field)
    ensures r.Ok? <==> HasPayload(field) && (Skipped(field) || Numeric(Tokens(Payload(field)), num))
    ensures r.Ok? && r.value.Some? ==>
              ParseObject(field, Name(field), Tokens(Payload(field)), num) == Ok(r.value.value)
  {
    var general := Split(field, ':');
    if |general| < 2 then Err(MissingColon(field))
    else if Contains(general[1], ErrorMarker) then Ok(None)
    else
      var o :- ParseObject(field, general[0], Tokens(general[1]), num);
      Ok(Some(o))
  }

  /** A parser for one field: an object, nothing (skipped), or an error. */
  type FieldParser<T> = string -> Result<Option<T>, ParseError>

  /** The loop over the fields in `parse_sensor_string`, with its field parser. */
  function FieldParserOf(num: NumParser): FieldParser<RecognizedObject>
  {
    f => ParseField(f, num)
  }

  /** The fields in order, stopping at the first one that raises. */
  function ParseFields<T>(fields: seq<string>, pf: FieldParser<T>): Result<seq<T>, ParseError>
  {
    if |fields| == 0 then Ok([])
    else
      var head :- pf(fields[0]);
      var tail :- ParseFields(fields[1..], pf);
      Ok((if head.Some? then [head.value] else []) + tail)
  }

  /** The fields that are not skipped, in order. */
  function Kept<T(==)>(fields: seq<string>, pf: FieldParser<T>): seq<string>
  {
    if |fields| == 0 then []
    else (if pf(fields[0]) == Ok(None) then [] else [fields[0]]) + Kept(fields[1..], pf)
  }

  /** A field list parses iff every field does. */
  lemma {:induction false} ParseFieldsOk<T>(fields: seq<string>, pf: FieldParser<T>)
    ensures ParseFields(fields, pf).Ok? <==> forall i :: 0 <= i < |fields| ==> pf(fields[i]).Ok?
    decreases |fields|
  {
    if |fields| > 0 {
      ParseFieldsOk(fields[1..], pf);
      assert forall i :: 1 <= i < |fields| ==> fields[1..][i - 1] == fields[i];
    }
  }

  /** `objs` are the objects of the fields `kept`, one each and in order. */
  predicate ObjectsOf<T(==)>(objs: seq<T>, kept: seq<string>, pf: FieldParser<T>)
  {
    |objs| == |kept| && forall j :: 0 <= j < |objs| ==> pf(kept[j]) == Ok(Some(objs[j]))
  }

  lemma ObjectsOfCons<T>(o: T, objs: seq<T>, f: string, kept: seq<string>, pf: FieldParser<T>)
    requires ObjectsOf(objs, kept, pf) && pf(f) == Ok(Some(o))
    ensures ObjectsOf([o] + objs, [f] + kept, pf)
  {
    var fs, os := [f] + kept, [o] + objs;
    assert forall j :: 1 <= j < |fs| ==> fs[j] == kept[j - 1] && os[j] == objs[j - 1];
  }

  /** The objects of a parsed field list are those of its kept fields, one
      each and in the same order. */
  lemma {:induction false} ParseFieldsKept<T>(fields: seq<string>, pf: FieldParser<T>)
    requires ParseFields(fields, pf).Ok?
    ensures ObjectsOf(ParseFields(fields, pf).value, Kept(fields, pf), pf)
    decreases |fields|
  {
    if |fields| > 0 {
      ParseFieldsKept(fields[1..], pf);
      var objs := ParseFields(fields, pf).value;
      var tail := ParseFields(fields[1..], pf).value;
      var head := pf(fields[0]).value;
      assert objs == (if head.Some? then [head.value] else []) + tail;
      if head.Some? {
        ObjectsOfCons(head.value, tail, fields[0], Kept(fields[1..], pf), pf);
      } else {
        assert objs == tail;
      }
    }
  }

  /** A failing field list fails with the error of its first failing field. */
  lemma {:induction false} ParseFieldsFirstError<T>(fields: seq<string>, pf: FieldParser<T>)
    requires ParseFields(fields, pf).Err?
    ensures exists i :: 0 <= i < |fields|
              && (forall j :: 0 <= j < i ==> pf(fields[j]).Ok?)
              && pf(fields[i]) == Err(ParseFields(fields, pf).error)
    decreases |fields|
  {
    if pf(fields[0]).Ok? {
      ParseFieldsFirstError(fields[1..], pf);
      var i :| 0 <= i < |fields[1..]|
               && (forall j :: 0 <= j < i ==> pf(fields[1..][j]).Ok?)
               && pf(fields[1..][i]) == Err(ParseFields(fields[1..], pf).error);
      assert forall j :: 1 <= j < i + 1 ==> fields[j] == fields[1..][j - 1];
      assert pf(fields[i + 1]) == Err(ParseFields(fields, pf).error);
    } else {
      assert pf(fields[0]) == Err(ParseFields(fields, pf).error);
    }
  }

  function ToDetection(o: RecognizedObject): DetectionObj
  {
    DetectionObj(o.name, o.x, o.y, o.angle, true)
  }

  /** The name map with one value per entry: its keys are the names of the
      objects (what each name holds is `FlatMapLast`). */
  function FlatMap(objs: seq<RecognizedObject>): (m: map<string, DetectionObj>)
    ensures m.Keys == set i | 0 <= i < |objs| :: objs[i].name
  {
    if |objs| == 0 then map[]
    else
      var init := objs[..|objs| - 1];
      var o := objs[|objs| - 1];
      assert forall i :: 0 <= i < |objs| - 1 ==> init[i] == objs[i];
      FlatMap(init)[o.name := ToDetection(o)]
  }

  /** Each name holds a value of its own: the object at `i`, when no later
      object has its name. */
  lemma {:induction false} FlatMapLast(objs: seq<RecognizedObject>, i: nat)
    requires i < |objs|
    requires forall j :: i < j < |objs| ==> objs[j].name != objs[i].name
    ensures objs[i].name in FlatMap(objs) && FlatMap(objs)[objs[i].name] == ToDetection(objs[i])
    decreases |objs|
  {
    if i < |objs| - 1 {
      var init := objs[..|objs| - 1];
      assert init[i] == objs[i];
      forall j | i < j < |init|
        ensures init[j].name != init[i].name
      {
        assert init[j] == objs[j];
      }
      FlatMapLast(init, i);
      assert objs[|objs| - 1].name != objs[i].name;
    }
  }

  /** The name map as the source builds it: every key is bound to the one
      shared structure, so every value shows the last object written. */
  function AliasedFlatMap(objs: seq<RecognizedObject>): (m: map<string, DetectionObj>)
    ensures m.Keys == FlatMap(objs).Keys
    ensures forall k :: k in m ==> m[k] == ToDetection(objs[|objs| - 1])
  {
    if |objs| == 0 then map[]
    else map k | k in FlatMap(objs).Keys :: ToDetection(objs[|objs| - 1])
  }

  /** The two maps agree on the name written last. */
  lemma AliasedAgreesOnLast(objs: seq<RecognizedObject>)
    requires |objs| > 0
    ensures AliasedFlatMap(objs)[objs[|objs| - 1].name] == FlatMap(objs)[objs[|objs| - 1].name]
  {
    FlatMapLast(objs, |objs| - 1);
  }

  /** With two differently named objects, the aliased map reports the
      second object's name and position under the first one's name. */
  lemma AliasingLosesEarlierEntry(a: RecognizedObject, b: RecognizedObject)
    requires a.name != b.name
    ensures a.name in AliasedFlatMap([a, b]) && AliasedFlatMap([a, b])[a.name] == ToDetection(b)
    ensures a.name in FlatMap([a, b]) && AliasedFlatMap([a, b])[a.name] != FlatMap([a, b])[a.name]
  {
    assert [a, b][0] == a && [a, b][1] == b;
    FlatMapLast([a, b], 0);
  }

  /** The result of one parse: the objects and the name map. */
  datatype Detections = Detections(objects: seq<RecognizedObject>, byName: map<string, DetectionObj>)

  /** One record: the fields after the last `{` minus the first, parsed in
      order; the name map is built with one value per entry. */
  function ParseRecord(data: string, num: NumParser): Result<Detections, ParseError>
  {
    var objs :- ParseFields(Fields(data), FieldParserOf(num));
    Ok(Detections(objs, FlatMap(objs)))
  }

  /** A record parses iff each of its fields does; the fields with the error
      marker then contribute nothing: the objects are those of the other
      fields, in order, and the map keys are exactly their names. */
  lemma ParseRecordKept(data: string, num: NumParser)
    ensures ParseRecord(data, num).Ok? <==>
              forall i :: 0 <= i < |Fields(data)| ==> ParseField(Fields(data)[i], num).Ok?
    ensures ParseRecord(data, num).Ok? ==>
              var d := ParseRecord(data, num).value;
              var kept := Kept(Fields(data), FieldParserOf(num));
              && ObjectsOf(d.objects, kept, FieldParserOf(num))
              && (forall j :: 0 <= j < |kept| ==> !Skipped(kept[j]))
              && d.byName.Keys == set j | 0 <= j < |kept| :: Name(kept[j])
  {
    var fields, pf := Fields(data), FieldParserOf(num);
    ParseFieldsOk(fields, pf);
    if ParseFields(fields, pf).Ok? {
      var kept := Kept(fields, pf);
      var objs := ParseFields(fields, pf).value;
      ParseFieldsKept(fields, pf);
      ObjectsOfNames(objs, kept, num);
    }
  }

  lemma FieldObjectName(f: string, num: NumParser, o: RecognizedObject)
    requires ParseField(f, num) == Ok(Some(o))
    ensures o.name == Name(f) && !Skipped(f)
  {
  }

  lemma ObjectsOfNames(objs: seq<RecognizedObject>, kept: seq<string>, num: NumParser)
    requires ObjectsOf(objs, kept, FieldParserOf(num))
    ensures forall j :: 0 <= j < |kept| ==> !Skipped(kept[j])
    ensures FlatMap(objs).Keys == set j | 0 <= j < |kept| :: Name(kept[j])
  {
    forall j | 0 <= j < |objs|
      ensures objs[j].name == Name(kept[j]) && !Skipped(kept[j])
    {
      assert FieldParserOf(num)(kept[j]) == ParseField(kept[j], num);
      FieldObjectName(kept[j], num, objs[j]);
    }
    SameNames(objs, kept);
  }

  lemma SameNames(objs: seq<RecognizedObject>, kept: seq<string>)
    requires |objs| == |kept| && forall j :: 0 <= j < |objs| ==> objs[j].name == Name(kept[j])
    ensures FlatMap(objs).Keys == set j | 0 <= j < |kept| :: Name(kept[j])
  {
    var a := set i | 0 <= i < |objs| :: objs[i].name;
    var b := set j | 0 <= j < |kept| :: Name(kept[j]);
    assert forall x :: x in a ==> x in b;
    assert forall x :: x in b ==> x in a;
  }

  /** A field has a payload exactly when it holds a ':'. */
  lemma HasPayloadIffColon(field: string)
    ensures HasPayload(field) <==> ':' in field
  {
    if ':' in field {
      var i :| 0 <= i < |field| && field[i] == ':';
      assert !Free(field, ":");
    }
  }

  lemma SplitColonHead(head: string, tail: string)
    requires ':' !in head
    ensures Split(head + [':'] + tail, ':') == [head] + Split(tail, ':')
  {
    MultiSplitFree(head, ":");
    MultiSplitAtDelim(head, ':', tail, ":");
  }

  /** The name is the text before the first ':' and the payload the text
      between the first ':' and the next one, if any. */
  lemma FieldParts(name: string, payload: string, rest: string)
    requires ':' !in name && ':' !in payload
    requires rest == "" || rest[0] == ':'
    ensures var f := name + [':'] + payload + rest;
            HasPayload(f) && Name(f) == name && Payload(f) == payload
  {
    var tail := payload + rest;
    assert name + [':'] + payload + rest == name + [':'] + tail;
    SplitColonHead(name, tail);
    if rest == "" {
      assert tail == payload;
      MultiSplitFree(payload, ":");
    } else {
      assert tail == payload + [':'] + rest[1..];
      SplitColonHead(payload, rest[1..]);
    }
  }

  /** Only the text after the last `{` counts, and of its `;`-separated
      fields the first is dropped, whatever it holds. */
  lemma FieldsAfterHeader(prefix: string, header: string, body: string)
    requires '{' !in header && ';' !in header && '{' !in body
    ensures Fields(prefix + ['{'] + header + [';'] + body) == Split(body, ';')
  {
    var t := header + [';'] + body;
    assert prefix + ['{'] + header + [';'] + body == prefix + ['{'] + t;
    MultiSplitAtDelim(prefix, '{', t, "{");
    MultiSplitFree(t, "{");
    assert Body(prefix + ['{'] + t) == t;
    MultiSplitAtDelim(header, ';', body, ";");
    MultiSplitFree(header, ";");
  }

  /** Two records that differ only before their last `{` parse alike. */
  lemma LeadingTextIgnored(p: string, q: string, t: string, num: NumParser)
    requires '{' !in t
    ensures ParseRecord(p + ['{'] + t, num) == ParseRecord(q + ['{'] + t, num)
  {
    MultiSplitAtDelim(p, '{', t, "{");
    MultiSplitAtDelim(q, '{', t, "{");
    MultiSplitFree(t, "{");
    assert Body(p + ['{'] + t) == t == Body(q + ['{'] + t);
  }
}
