/** Concrete runs of the model on small inputs. */
module Scenarios {
  import opened Wrappers
  import opened Strings
  import opened Tokenizer
  import opened Lines
  import opened Framer
  import opened Parser
  import opened Bridge

  lemma FieldsOfTwo(prefix: string, header: string, f1: string, f2: string)
    requires '{' !in header && '{' !in f1 && '{' !in f2
    requires ';' !in header && ';' !in f1 && ';' !in f2
    ensures Fields(prefix + ['{'] + header + [';'] + f1 + [';'] + f2) == [f1, f2]
  {
    var body := f1 + [';'] + f2;
    assert prefix + ['{'] + header + [';'] + f1 + [';'] + f2 == prefix + ['{'] + header + [';'] + body;
    FieldsAfterHeader(prefix, header, body);
    MultiSplitAtDelim(f1, ';', f2, ";");
    MultiSplitFree(f1, ";");
    MultiSplitFree(f2, ";");
  }

  lemma ClosingBraceFields(prefix: string, header: string)
    requires '{' !in header && ';' !in header
    ensures Fields(prefix + ['{'] + header + ";OBJ2:#ERR;}") == ["OBJ2:#ERR", "}"]
  {
    FieldsOfTwo(prefix, header, "OBJ2:#ERR", "}");
    assert prefix + ['{'] + header + [';'] + "OBJ2:#ERR" + [';'] + "}"
        == prefix + ['{'] + header + ";OBJ2:#ERR;}";
  }

  lemma ErrFieldSkipped(num: NumParser)
    ensures ParseField("OBJ2:#ERR", num) == Ok(None)
  {
    FieldParts("OBJ2", "#ERR", "");
    assert "OBJ2" + [':'] + "#ERR" + "" == "OBJ2:#ERR";
    assert Contains("#ERR", ErrorMarker);
  }

  lemma BraceFieldFails(num: NumParser)
    ensures ParseField("}", num) == Err(MissingColon("}"))
  {
    HasPayloadIffColon("}");
  }

  /** A record whose last field is a bare `}` raises, whatever comes before
      the `{` and whatever the first field holds: the first field after `{`
      is discarded, the `#ERR` field is skipped, and `}` has no ':'. With
      prefix `prefix` and header `OBJ1:10.0,20.0,90.0,95.0°` this is the
      record `prefix{OBJ1:10.0,20.0,90.0,95.0°;OBJ2:#ERR;}`. */
  lemma ClosingBraceRecordFails(prefix: string, header: string, num: NumParser)
    requires '{' !in header && ';' !in header
    ensures ParseRecord(prefix + ['{'] + header + ";OBJ2:#ERR;}", num) == Err(MissingColon("}"))
  {
    ClosingBraceFields(prefix, header);
    ErrFieldSkipped(num);
    BraceFieldFails(num);
    var fields := ["OBJ2:#ERR", "}"];
    assert fields[1..] == ["}"];
    assert ParseFields(["}"], FieldParserOf(num)) == Err(MissingColon("}"));
  }

  /** The line a record split as `{A:1,2,3;` and `}` completes raises too:
      its only field after the discarded first one is the bare `}`. */
  lemma SplitRecordFails(prefix: string, header: string, num: NumParser)
    requires '{' !in header && ';' !in header
    ensures ParseRecord(prefix + ['{'] + header + ";}", num) == Err(MissingColon("}"))
  {
    FieldsAfterHeader(prefix, header, "}");
    MultiSplitFree("}", ";");
    assert prefix + ['{'] + header + [';'] + "}" == prefix + ['{'] + header + ";}";
    BraceFieldFails(num);
    assert ParseFields(["}"], FieldParserOf(num)) == Err(MissingColon("}"));
  }
}
