/** The sensor's command facade: each request is validated and, when valid,
    turned into one native command text together with a flag saying whether
    the sensor's reply is read back. The native client itself is a function
    parameter (`exec`), so a rejected request provably issues no command. */
module Commands {
  import opened Wrappers
  import opened Decimal

  /** Where native commands go: the sensor's host and its password. */
  datatype Config = Config(host: string, password: string)

  datatype Request =
    | GetCell(cell: string)
    | SetCellInt(cell: string, value: int)
    | SetCellFloat(cell: string, fvalue: real)
    | SetCellString(cell: string, text: string)
    | TriggerAcquisition
    | TriggerEvent(event: int)

  /** One call of the native client. */
  datatype NativeCall = NativeCall(host: string, password: string, command: string, expectResponse: bool)

  /** The `ValueError`s the facade raises, one per message. */
  datatype InvalidArgument = InvalidCell | InvalidCharacters | InvalidEvent

  /** Fixed-point formatting with four decimals (`{value:.4f}`). */
  type FloatFormat = real -> string

  predicate IsUpper(c: char)
  {
    'A' <= c <= 'Z'
  }

  predicate IsPrintable(c: char)
  {
    ' ' <= c <= '~'
  }

  predicate AllPrintable(s: string)
  {
    forall i :: 0 <= i < |s| ==> IsPrintable(s[i])
  }

  // ---- The two regular expressions, matched the way `re.match` does ----

  /** `$` without MULTILINE: the end of the text, or just before a final
      newline. */
  predicate EndAnchor(s: string, pos: nat)
  {
    pos == |s| || (pos == |s| - 1 && s[pos] == '\n')
  }

  /** `re.match(r'^[A-Z][0-9]{3}$', s)`. */
  predicate MatchCell(s: string)
  {
    |s| >= 4 && IsUpper(s[0]) && IsDigit(s[1]) && IsDigit(s[2]) && IsDigit(s[3])
    && EndAnchor(s, 4)
  }

  /** Length of the longest prefix of `s` in `[\x20-\x7E]`, as the greedy
      `+` consumes it. */
  function PrintableRun(s: string): (n: nat)
    ensures n <= |s|
    ensures AllPrintable(s[..n])
    ensures n < |s| ==> !IsPrintable(s[n])
  {
    if |s| == 0 || !IsPrintable(s[0]) then 0
    else
      var n := 1 + PrintableRun(s[1..]);
      assert forall i :: 1 <= i < n ==> s[..n][i] == s[1..][..n - 1][i - 1];
      n
  }

  /** `re.match(r'^[\x20-\x7E]+$', s)`: the greedy run cannot give back a
      character usefully, because `$` never holds before a printable one. */
  predicate MatchText(s: string)
  {
    var n := PrintableRun(s);
    n >= 1 && EndAnchor(s, n)
  }

  // ---- What the expressions accept, said directly ----

  /** A cell name: a capital letter and three digits. */
  predicate CellName(c: string)
  {
    |c| == 4 && IsUpper(c[0]) && AllDigits(c[1..])
  }

  /** What the cell check accepts: a cell name, optionally followed by one
      newline. */
  ghost predicate IsCell(s: string)
  {
    exists c :: CellName(c) && (s == c || s == c + "\n")
  }

  /** What the string check accepts: non-empty printable ASCII, optionally
      followed by one newline. */
  ghost predicate IsText(s: string)
  {
    exists p :: |p| >= 1 && AllPrintable(p) && (s == p || s == p + "\n")
  }

  lemma MatchCellIff(s: string)
    ensures MatchCell(s) <==> IsCell(s)
  {
    if MatchCell(s) {
      var c := s[..4];
      assert c[1..] == [s[1], s[2], s[3]];
      assert s == c || s == c + "\n";
      assert CellName(c);
    }
    if IsCell(s) {
      var c :| CellName(c) && (s == c || s == c + "\n");
      assert c[1..][0] == c[1] && c[1..][1] == c[2] && c[1..][2] == c[3];
      assert s[..4] == c;
    }
  }

  lemma MatchTextIff(s: string)
    ensures MatchText(s) <==> IsText(s)
  {
    var n := PrintableRun(s);
    if MatchText(s) {
      var p := s[..n];
      assert s == p || s == p + "\n";
    }
    if IsText(s) {
      var p :| |p| >= 1 && AllPrintable(p) && (s == p || s == p + "\n");
      assert forall i :: 0 <= i < |p| ==> s[i] == p[i];
      if s != p {
        assert s[|p|] == '\n';
      }
    }
  }

  /** Whether the facade accepts `req`. */
  ghost predicate Admissible(req: Request)
  {
    match req
    case GetCell(cell) => IsCell(cell)
    case SetCellInt(cell, _) => IsCell(cell)
    case SetCellFloat(cell, _) => IsCell(cell)
    case SetCellString(cell, text) => IsCell(cell) && IsText(text)
    case TriggerAcquisition => true
    case TriggerEvent(e) => 0 <= e <= 8
  }

  predicate HasCell(req: Request)
  {
    req.GetCell? || req.SetCellInt? || req.SetCellFloat? || req.SetCellString?
  }

  lemma CellOfRequest(req: Request)
    ensures HasCell(req) ==> (MatchCell(req.cell) <==> IsCell(req.cell))
  {
    if HasCell(req) {
      MatchCellIff(req.cell);
    }
  }

  /** The command a request sends, or the error it raises before sending
      anything. The cell is checked before the string, so a request with a
      bad cell and bad characters reports the cell. */
  function CommandFor(cfg: Config, req: Request, fmt: FloatFormat): (r: Result<NativeCall, InvalidArgument>)
    ensures r.Err? <==> !Admissible(req)
    ensures HasCell(req) && !IsCell(req.cell) ==> r == Err(InvalidCell)
    ensures req.SetCellString? && IsCell(req.cell) && !IsText(req.text) ==> r == Err(InvalidCharacters)
    ensures req.TriggerEvent? && !(0 <= req.event <= 8) ==> r == Err(InvalidEvent)
    ensures r.Ok? ==> r.value.host == cfg.host && r.value.password == cfg.password
    ensures r.Ok? ==> (r.value.expectResponse <==> req.GetCell?)
  {
    CellOfRequest(req);
    if HasCell(req) && !MatchCell(req.cell) then Err(InvalidCell)
    else
      match req
      case GetCell(cell) => Ok(NativeCall(cfg.host, cfg.password, "GV" + cell, true))
      case SetCellInt(cell, v) => Ok(NativeCall(cfg.host, cfg.password, "SI" + cell + IntToText(v), false))
      case SetCellFloat(cell, v) => Ok(NativeCall(cfg.host, cfg.password, "SF" + cell + fmt(v), false))
      case SetCellString(cell, text) =>
        MatchTextIff(text);
        if !MatchText(text) then Err(InvalidCharacters)
        else Ok(NativeCall(cfg.host, cfg.password, "SS" + cell + text, false))
      case TriggerAcquisition => Ok(NativeCall(cfg.host, cfg.password, "SW8", false))
      case TriggerEvent(e) =>
        if e < 0 || e > 8 then Err(InvalidEvent)
        else Ok(NativeCall(cfg.host, cfg.password, "SW" + IntToText(e), false))
  }

  /** A facade call: validate, then hand the command to the native client
      `exec`, whose reply (or lack of one) is the result. */
  function Invoke<R>(cfg: Config, req: Request, fmt: FloatFormat, exec: NativeCall -> R): (r: Result<R, InvalidArgument>)
    ensures r.Err? <==> !Admissible(req)
    ensures r.Err? ==> r == Err(CommandFor(cfg, req, fmt).error)
    ensures Admissible(req) ==> CommandFor(cfg, req, fmt).Ok? && r == Ok(exec(CommandFor(cfg, req, fmt).value))
  {
    var call :- CommandFor(cfg, req, fmt);
    Ok(exec(call))
  }

  /** A rejected request never reaches the native client: the outcome is
      the same whatever the client would have done. */
  lemma NoNativeCallWhenInvalid<R>(cfg: Config, req: Request, fmt: FloatFormat, e1: NativeCall -> R, e2: NativeCall -> R)
    requires !Admissible(req)
    ensures Invoke(cfg, req, fmt, e1) == Invoke(cfg, req, fmt, e2)
    ensures Invoke(cfg, req, fmt, e1).Err?
  {
  }

  /** Acquisition is event 8. */
  lemma AcquisitionIsEvent8(cfg: Config, fmt: FloatFormat)
    ensures CommandFor(cfg, TriggerAcquisition, fmt) == CommandFor(cfg, TriggerEvent(8), fmt)
  {
    assert DigitChar(8) == '8';
    assert "SW" + IntToText(8) == "SW8";
  }

  // ---- Reading a command text back ----

  /** What a command text asks the sensor to do. */
  datatype Decoded =
    | ReadCell(cell: string)
    | WriteInt(cell: string, value: int)
    | WriteFloat(cell: string, text: string)
    | WriteString(cell: string, text: string)
    | Trigger(event: int)

  /** How long the cell part of `rest` is: five characters when the cell
      carries the newline the cell check lets through. */
  function CellLength(rest: string): nat
  {
    if |rest| >= 5 && rest[4] == '\n' then 5 else 4
  }

  /** Reads a command text: a two-letter opcode, then the cell and the
      value. */
  function Decode(cmd: string): Option<Decoded>
  {
    if |cmd| < 2 then None
    else
      var op, rest := cmd[..2], cmd[2..];
      if op == "GV" then
        if MatchCell(rest) then Some(ReadCell(rest)) else None
      else if op == "SW" then
        match ParseIntText(rest)
        case Some(e) => Some(Trigger(e))
        case None => None
      else if op == "SI" || op == "SF" || op == "SS" then
        var n := CellLength(rest);
        if |rest| < n || !MatchCell(rest[..n]) then None
        else
          var cell, value := rest[..n], rest[n..];
          if op == "SI" then
            match ParseIntText(value)
            case Some(v) => Some(WriteInt(cell, v))
            case None => None
          else if op == "SF" then Some(WriteFloat(cell, value))
          else Some(WriteString(cell, value))
      else None
  }

  /** What a valid request should decode to. */
  function Expected(req: Request, fmt: FloatFormat): Decoded
  {
    match req
    case GetCell(cell) => ReadCell(cell)
    case SetCellInt(cell, v) => WriteInt(cell, v)
    case SetCellFloat(cell, v) => WriteFloat(cell, fmt(v))
    case SetCellString(cell, text) => WriteString(cell, text)
    case TriggerAcquisition => Trigger(8)
    case TriggerEvent(e) => Trigger(e)
  }

  predicate StartsWithNewline(s: string)
  {
    |s| >= 1 && s[0] == '\n'
  }

  /** The cell part of `op + cell + value` is recovered whenever the value
      does not itself begin with a newline. */
  lemma SplitCellValue(op: string, cell: string, value: string)
    requires |op| == 2 && MatchCell(cell) && !StartsWithNewline(value)
    ensures var rest := (op + cell + value)[2..];
            CellLength(rest) <= |rest| && rest[..CellLength(rest)] == cell && rest[CellLength(rest)..] == value
  {
    var rest := (op + cell + value)[2..];
    assert rest == cell + value;
    if |cell| == 4 {
      assert |rest| >= 5 ==> rest[4] == value[0];
      assert CellLength(rest) == 4;
    } else {
      assert CellLength(rest) == 5;
    }
  }

  lemma OpcodeOf(op: string, tail: string)
    requires |op| == 2
    ensures (op + tail)[..2] == op && (op + tail)[2..] == tail
  {
  }

  lemma GetCellRoundTrip(cell: string)
    requires MatchCell(cell)
    ensures Decode("GV" + cell) == Some(ReadCell(cell))
  {
    OpcodeOf("GV", cell);
  }

  lemma SetCellRoundTrip(op: string, cell: string, value: string)
    requires op == "SI" || op == "SF" || op == "SS"
    requires MatchCell(cell) && !StartsWithNewline(value)
    ensures var d := Decode(op + cell + value);
            && (op == "SI" ==> d == (match ParseIntText(value) case Some(v) => Some(WriteInt(cell, v)) case None => None))
            && (op == "SF" ==> d == Some(WriteFloat(cell, value)))
            && (op == "SS" ==> d == Some(WriteString(cell, value)))
  {
    OpcodeOf(op, cell + value);
    assert op + cell + value == op + (cell + value);
    SplitCellValue(op, cell, value);
  }

  lemma TriggerRoundTrip(e: int)
    requires 0 <= e <= 8
    ensures Decode("SW" + IntToText(e)) == Some(Trigger(e))
  {
    IntTextRoundTrip(e);
    OpcodeOf("SW", IntToText(e));
  }

  /** Every command sent for a valid request reads back as that request. */
  lemma CommandRoundTrip(cfg: Config, req: Request, fmt: FloatFormat)
    requires CommandFor(cfg, req, fmt).Ok?
    requires req.SetCellFloat? ==> !StartsWithNewline(fmt(req.fvalue))
    ensures Decode(CommandFor(cfg, req, fmt).value.command) == Some(Expected(req, fmt))
  {
    CellOfRequest(req);
    match req
    case GetCell(cell) =>
      GetCellRoundTrip(cell);
    case SetCellInt(cell, v) =>
      IntTextRoundTrip(v);
      SetCellRoundTrip("SI", cell, IntToText(v));
    case SetCellFloat(cell, v) =>
      SetCellRoundTrip("SF", cell, fmt(v));
    case SetCellString(cell, text) =>
      MatchTextIff(text);
      SetCellRoundTrip("SS", cell, text);
    case TriggerAcquisition =>
      AcquisitionIsEvent8(cfg, fmt);
      TriggerRoundTrip(8);
    case TriggerEvent(e) =>
      TriggerRoundTrip(e);
  }

  /** The numbers in a command text are spelled as `str()` spells them: a
      text that reads back as an event or an integer write is exactly the
      opcode, the cell and the canonical numeral, so `SW08` or `SI A123-0`
      never pass for a command the facade sends. */
  lemma DecodedNumberIsCanonical(cmd: string, d: Decoded)
    requires Decode(cmd) == Some(d)
    ensures d.Trigger? ==> cmd == "SW" + IntToText(d.event)
    ensures d.WriteInt? ==> cmd == "SI" + d.cell + IntToText(d.value)
  {
    var op, rest := cmd[..2], cmd[2..];
    assert cmd == op + rest;
    if d.Trigger? {
      ParsedTextIsCanonical(rest, d.event);
    } else if d.WriteInt? {
      var n := CellLength(rest);
      assert rest == rest[..n] + rest[n..];
      ParsedTextIsCanonical(rest[n..], d.value);
    }
  }

  /** Different valid requests send different commands (up to acquisition
      being event 8). */
  lemma CommandsDistinct(cfg: Config, a: Request, b: Request, fmt: FloatFormat)
    requires CommandFor(cfg, a, fmt).Ok? && CommandFor(cfg, b, fmt).Ok?
    requires a.SetCellFloat? ==> !StartsWithNewline(fmt(a.fvalue))
    requires b.SetCellFloat? ==> !StartsWithNewline(fmt(b.fvalue))
    requires CommandFor(cfg, a, fmt).value.command == CommandFor(cfg, b, fmt).value.command
    ensures Expected(a, fmt) == Expected(b, fmt)
  {
    CommandRoundTrip(cfg, a, fmt);
    CommandRoundTrip(cfg, b, fmt);
  }

  // ---- The accepted and refused cells and events at the boundaries ----

  lemma CellExamples()
    ensures IsCell("A123") && IsCell("Z999")
    ensures IsCell("A123\n")
    ensures !IsCell("a123") && !IsCell("A12") && !IsCell("1234") && !IsCell("A1234") && !IsCell("A123\n\n")
  {
    MatchCellIff("A123");
    MatchCellIff("Z999");
    MatchCellIff("A123\n");
    MatchCellIff("a123");
    MatchCellIff("A12");
    MatchCellIff("1234");
    MatchCellIff("A1234");
    MatchCellIff("A123\n\n");
  }

  lemma AcceptedTexts()
    ensures IsText("hello world") && IsText("x\n")
  {
    assert IsText("hello world") by {
      assert AllPrintable("hello world");
    }
    assert IsText("x\n") by {
      assert "x\n" == "x" + "\n";
    }
  }

  lemma RefusedTexts()
    ensures !IsText("") && !IsText("\n") && !IsText("a\tb") && !IsText("caf\U{E9}")
  {
    MatchTextIff("");
    MatchTextIff("\n");
    MatchTextIff("a\tb");
    MatchTextIff("caf\U{E9}");
  }

  lemma EventBounds(cfg: Config, fmt: FloatFormat)
    ensures CommandFor(cfg, TriggerEvent(0), fmt).Ok? && CommandFor(cfg, TriggerEvent(8), fmt).Ok?
    ensures CommandFor(cfg, TriggerEvent(9), fmt) == Err(InvalidEvent)
    ensures CommandFor(cfg, TriggerEvent(-1), fmt) == Err(InvalidEvent)
  {
  }
}
