/** `sscanf` with `%u` and `%d`, and numbers as they are printed. */
module Numerals {
  import opened Common

  const WORD := 0x1_0000_0000
  type int32 = x: int | -0x8000_0000 <= x < 0x8000_0000

  predicate IsDigit(c: char) {
    '0' <= c <= '9'
  }

  predicate IsSpace(c: char) {
    c == ' ' || '\t' <= c <= '\r'
  }

  function DigitValue(c: char): nat
    requires IsDigit(c)
  {
    c as int - '0' as int
  }

  function Digit(d: nat): (c: char)
    requires d < 10
    ensures IsDigit(c) && DigitValue(c) == d
  {
    (d + '0' as int) as char
  }

  function Digits(n: nat): (s: string)
    ensures s != [] && IsDigit(s[0])
  {
    if n < 10 then [Digit(n)] else Digits(n / 10) + [Digit(n % 10)]
  }

  function SkipSpace(s: string): string {
    if s != [] && IsSpace(s[0]) then SkipSpace(s[1..]) else s
  }

  /** Reads as many digits as there are, on top of `acc`. */
  function ReadDigits(s: string, acc: nat): (nat, string) {
    if s != [] && IsDigit(s[0]) then ReadDigits(s[1..], acc * 10 + DigitValue(s[0])) else (acc, s)
  }

  /** One conversion: nothing left to read, no number there, or a number and what follows it. */
  datatype Scan = Eof | NoMatch | Got(value: int, rest: string)

  function ScanInt(text: string): Scan {
    var s := SkipSpace(text);
    if s == [] then Eof
    else
      var negative := s[0] == '-';
      var body := if negative || s[0] == '+' then s[1..] else s;
      if body != [] && IsDigit(body[0]) then
        var (n, rest) := ReadDigits(body, 0);
        Got(if negative then 0 - n else n, rest)
      else NoMatch
  }

  /** `%u` stores the number modulo 2^32, `%d` as a signed word. */
  function Unsigned(n: int): uint32 {
    n % WORD
  }

  function Signed(n: int): int32 {
    var u := n % WORD;
    if u < 0x8000_0000 then u else u - WORD
  }

  function PrintInt(n: int): string {
    if n < 0 then "-" + Digits(-n) else Digits(n)
  }

  predicate StartsWithDigit(s: string) {
    s != [] && IsDigit(s[0])
  }

  lemma {:induction false} ReadsDigits(n: nat, rest: string)
    ensures ReadDigits(Digits(n) + rest, 0) == ReadDigits(rest, n)
  {
    if n < 10 {
      assert (Digits(n) + rest)[1..] == rest;
    } else {
      var d := [Digit(n % 10)];
      assert Digits(n) + rest == Digits(n / 10) + (d + rest);
      ReadsDigits(n / 10, d + rest);
      assert (d + rest)[1..] == rest;
    }
  }

  /** Scanning what was printed gives the number back and leaves the rest. */
  lemma ScansPrinted(n: int, rest: string)
    requires !StartsWithDigit(rest)
    ensures ScanInt(PrintInt(n) + rest) == Got(n, rest)
  {
    var m := if n < 0 then -n else n;
    assert ReadDigits(rest, m) == (m, rest);
    ReadsDigits(m, rest);
    hide ReadDigits, Digits;
    var s, body := PrintInt(n) + rest, Digits(m) + rest;
    assert IsDigit(body[0]);
    assert s == if n < 0 then "-" + body else body;
    assert ("-" + body)[1..] == body;
    assert SkipSpace(s) == s;
  }

  // ---------- every text ----------

  predicate AllSpace(s: string) {
    forall i :: 0 <= i < |s| ==> s[i] in " \t\n\r" || s[i] as int == 11 || s[i] as int == 12
  }

  lemma {:induction false} SkipsPadding(pad: string, s: string)
    requires AllSpace(pad)
    ensures SkipSpace(pad + s) == SkipSpace(s)
  {
    if pad == [] {
      assert pad + s == s;
    } else {
      assert (pad + s)[1..] == pad[1..] + s;
      SkipsPadding(pad[1..], s);
    }
  }

  /** A number may be padded on the left and carry either sign. */
  lemma ScansSpelled(pad: string, sign: string, n: nat, rest: string)
    requires AllSpace(pad) && sign in {"", "+", "-"} && !StartsWithDigit(rest)
    ensures ScanInt(pad + (sign + (Digits(n) + rest))) == Got(if sign == "-" then 0 - n else n, rest)
  {
    assert ReadDigits(rest, n) == (n, rest);
    ReadsDigits(n, rest);
    hide ReadDigits, Digits;
    var body := Digits(n) + rest;
    var s := sign + body;
    SkipsPadding(pad, s);
    assert IsDigit(body[0]);
    assert sign == "" ==> s == body;
    assert sign != "" ==> s[1..] == body && s[0] == sign[0];
    assert SkipSpace(s) == s;
  }

  lemma PaddingAloneIsEof(pad: string)
    requires AllSpace(pad)
    ensures ScanInt(pad) == Eof
  {
    SkipsPadding(pad, "");
    assert pad + "" == pad;
  }

  /** Numbers of a word's size are stored as they are, and negative ones wrap around where there is no
      sign. */
  lemma WordsAreKept(n: int)
    ensures 0 <= n < WORD ==> Unsigned(n) == n
    ensures -WORD < n < 0 ==> Unsigned(n) == WORD + n
    ensures -0x8000_0000 <= n < 0x8000_0000 ==> Signed(n) == n
    ensures 0x8000_0000 <= n < WORD ==> Signed(n) == n - WORD
  {
    if -WORD < n < 0 {
      assert n % WORD == (n + WORD) % WORD;
    }
  }

  /** Anything else in front is no number, a sign without a digit included. */
  lemma OtherTextIsNoMatch(pad: string, sign: string, text: string)
    requires AllSpace(pad) && sign in {"", "+", "-"} && !StartsWithDigit(text)
    requires sign == "" ==> text != [] && !AllSpace([text[0]]) && text[0] != '+' && text[0] != '-'
    ensures ScanInt(pad + (sign + text)) == NoMatch
  {
    var s := sign + text;
    SkipsPadding(pad, s);
    assert sign == "" ==> s == text && AllSpace([text[0]]) == IsSpace([text[0]][0]);
    assert sign != "" ==> s[1..] == text && s[0] == sign[0];
    assert SkipSpace(s) == s;
  }

  /** Numbers are decimal. */
  lemma {:induction false} DigitsAreDecimal(n: nat, d: nat)
    requires d < 10
    ensures n > 0 ==> Digits(10 * n + d) == Digits(n) + Digits(d)
    ensures d == 7 ==> Digits(d) == "7"
  {
    assert (10 * n + d) / 10 == n && (10 * n + d) % 10 == d;
  }
}

/** The options of the camera test program. */
module CommandLine {
  import opened Common
  import opened Numerals

  datatype Rect = Rect(x: int32, y: int32, width: int32, height: int32)

  datatype Change =
    | NoChange | ImageEffect | Rotation | Zoom | FocusMode | Drc | Hdr
    | Contrast | Brightness | Saturation | Sharpness

  const CHANGE_TABLE: seq<(string, Change)> := [
    ("image_effect", ImageEffect), ("rotation", Rotation), ("zoom", Zoom), ("focus", FocusMode),
    ("drc", Drc), ("hdr", Hdr), ("contrast", Contrast), ("brightness", Brightness),
    ("saturation", Saturation), ("sharpness", Sharpness)]

  const FOCUS_EDOF: uint32 := 9

  /** `camcorder_behaviour` as far as options set it, and `sleepy_time`. */
  datatype Settings = Settings(
    uri: Option<string>,
    vformat: string,
    area: Rect,
    change: Change,
    secondsPerChange: uint32,
    sleep: uint32,
    rateNum: uint32,
    rateDen: uint32,
    tunneling: bool,
    zeroCopy: bool,
    opaqueImages: bool,
    bitRate: uint32,
    focus: uint32,
    camera: uint32)

  const NO_SETTINGS := Settings(None, [], Rect(0, 0, 0, 0), NoChange, 0, 0, 0, 0, false, false, false, 0, 0, 0)

  /** The first entry of the change table with that name. */
  function Lookup(name: string, from: nat): Option<Change>
    requires from <= |CHANGE_TABLE|
    decreases |CHANGE_TABLE| - from
  {
    if from == |CHANGE_TABLE| then None
    else if CHANGE_TABLE[from].0 == name then Some(CHANGE_TABLE[from].1)
    else Lookup(name, from + 1)
  }

  /** What `sscanf` leaves in its targets, and its result: conversions made, or -1 at the end of the
      text before the first. */
  datatype Scanned<T> = Scanned(value: T, count: int)

  /** `sscanf(text, "%u", &old)`. */
  function ScanOne(text: string, before: uint32): Scanned<uint32> {
    match ScanInt(text)
    case Eof => Scanned(before, -1)
    case NoMatch => Scanned(before, 0)
    case Got(n, _) => Scanned(Unsigned(n), 1)
  }

  function ScanAfter(separator: char, text: string): Scan {
    if text != [] && text[0] == separator then ScanInt(text[1..]) else NoMatch
  }

  /** `sscanf(text, "%d,%d,%d,%d", &x, &y, &width, &height)`. */
  function ScanRect(text: string, before: Rect): Scanned<Rect> {
    match ScanInt(text)
    case Eof => Scanned(before, -1)
    case NoMatch => Scanned(before, 0)
    case Got(x, more) => ScanY(more, before.(x := Signed(x)))
  }

  function ScanY(text: string, before: Rect): Scanned<Rect> {
    match ScanAfter(',', text)
    case Got(y, more) => ScanWidth(more, before.(y := Signed(y)))
    case _ => Scanned(before, 1)
  }

  function ScanWidth(text: string, before: Rect): Scanned<Rect> {
    match ScanAfter(',', text)
    case Got(w, more) => ScanHeight(more, before.(width := Signed(w)))
    case _ => Scanned(before, 2)
  }

  function ScanHeight(text: string, before: Rect): Scanned<Rect> {
    match ScanAfter(',', text)
    case Got(h, _) => Scanned(before.(height := Signed(h)), 4)
    case _ => Scanned(before, 3)
  }

  /** `sscanf(text, "%u/%u", &num, &den)`, with `den` set to one beforehand. */
  function ScanRate(text: string, num: uint32): Scanned<(uint32, uint32)> {
    match ScanInt(text)
    case Eof => Scanned((num, 1), -1)
    case NoMatch => Scanned((num, 1), 0)
    case Got(n, more) =>
      match ScanAfter('/', more)
      case Got(d, _) => Scanned((Unsigned(n), Unsigned(d)), 2)
      case _ => Scanned((Unsigned(n), 1), 1)
  }

  /** What the switch does with one option: show the usage text, or go on after `skip` further
      arguments; either way with these settings. */
  datatype Action = Usage(settings: Settings) | Go(settings: Settings, skip: nat)

  /** A refused command line leaves the settings it had changed by then. */
  datatype Outcome = Accepted(settings: Settings) | Refused(settings: Settings)

  predicate IsOption(arg: string) {
    arg != [] && arg[0] == '-'
  }

  function Letter(arg: string): char {
    if |arg| > 1 then arg[1] else '\0'
  }

  function GoIf(ok: bool, t: Settings, skip: nat): Action {
    if ok then Go(t, skip) else Usage(t)
  }

  /** `args` are the arguments after the option. */
  function OptionAction(option: string, args: seq<string>, s: Settings): (a: Action)
    ensures a.Go? ==> a.skip <= |args|
  {
    var c := Letter(option);
    if c == 'x' then Go(s.(tunneling := true), 0)
    else if c == 'z' then Go(s.(zeroCopy := !(|option| > 2 && option[2] == '!')), 0)
    else if c == 'O' then Go(s.(opaqueImages := true), 0)
    else if args == [] || c == 'h' then Usage(s)
    else if c == 'o' then Go(s.(uri := Some(args[0])), 1)
    else if c == 'v' then Go(s.(vformat := args[0]), 0)
    else if c == 'r' then
      var r := ScanRect(args[0], s.area);
      GoIf(r.count == 4, s.(area := r.value), 1)
    else if c == 'c' then
      if |args| < 2 then Usage(s)
      else
        var n := ScanOne(args[0], s.secondsPerChange);
        var t := s.(secondsPerChange := n.value);
        if n.count == 1 && Lookup(args[1], 0).Some? then Go(t.(change := Lookup(args[1], 0).value), 0) else Usage(t)
    else if c == 't' then
      var n := ScanOne(args[0], s.sleep);
      GoIf(n.count == 1, s.(sleep := n.value), 1)
    else if c == 'f' then
      var r := ScanRate(args[0], s.rateNum);
      GoIf(r.count != 0, s.(rateNum := r.value.0, rateDen := r.value.1), 1)
    else if c == 'b' then
      var n := ScanOne(args[0], s.bitRate);
      GoIf(n.count != 0, s.(bitRate := n.value), 1)
    else if c == 'a' then
      var n := ScanOne(args[0], s.focus);
      GoIf(n.count != 0 && n.value <= FOCUS_EDOF, s.(focus := n.value), 1)
    else if c == 'n' then
      var n := ScanOne(args[0], s.camera);
      GoIf(n.count != 0, s.(camera := n.value), 1)
    else Usage(s)
  }

  /** What is left of the command line does to `s`. */
  function Parse(args: seq<string>, passed: bool, s: Settings): Outcome
    decreases |args|
  {
    if args == [] then Accepted(s)
    else if passed || !IsOption(args[0]) then Parse(args[1..], passed, s)
    else if Letter(args[0]) == '-' then Parse(args[1..], true, s)
    else
      match OptionAction(args[0], args[1..], s)
      case Usage(t) => Refused(t)
      case Go(t, skip) => Parse(args[1 + skip..], false, t)
  }

  method FindChange(name: string) returns (found: Option<Change>)
    ensures found == Lookup(name, 0)
  {
    var index := 0;
    while index < |CHANGE_TABLE| && CHANGE_TABLE[index].0 != name
      invariant index <= |CHANGE_TABLE| && Lookup(name, 0) == Lookup(name, index)
    {
      index := index + 1;
    }
    found := if index >= |CHANGE_TABLE| then None else Some(CHANGE_TABLE[index].1);
  }

  /** The switch on the letter of option `i`, which is not a dash.  `next` is the last argument used. */
  method Switch(argv: seq<string>, i: nat, initial: Settings) returns (ok: bool, s: Settings, next: nat)
    requires i < |argv| && Letter(argv[i]) != '-'
    ensures i <= next
    ensures OptionAction(argv[i], argv[i + 1..], initial) == GoIf(ok, s, next - i)
  {
    hide ScanOne, ScanRect, ScanRate, Lookup;
    ok, s, next := false, initial, i;
    var c, more := Letter(argv[i]), i + 1 < |argv|;
    assert more ==> argv[i + 1..][0] == argv[i + 1];
    match c {
      case 'h' => return;
      case 'o' =>
        if !more { return; }
        next := i + 1;
        s := s.(uri := Some(argv[next]));
      case 'v' =>
        if !more { return; }
        s := s.(vformat := argv[i + 1]);
      case 'r' =>
        if !more { return; }
        var rect := ScanRect(argv[i + 1], s.area);
        s := s.(area := rect.value);
        if rect.count != 4 { return; }
        next := i + 1;
      case 'c' =>
        if i + 2 >= |argv| { return; }
        var seconds := ScanOne(argv[i + 1], s.secondsPerChange);
        s := s.(secondsPerChange := seconds.value);
        if seconds.count != 1 { return; }
        var found := FindChange(argv[i + 2]);
        if found.None? { return; }
        s := s.(change := found.value);
      case 't' =>
        if !more { return; }
        var seconds := ScanOne(argv[i + 1], s.sleep);
        s := s.(sleep := seconds.value);
        if seconds.count != 1 { return; }
        next := i + 1;
      case 'f' =>
        if !more { return; }
        var rate := ScanRate(argv[i + 1], s.rateNum);
        s := s.(rateNum := rate.value.0, rateDen := rate.value.1);
        if rate.count == 0 { return; }
        next := i + 1;
      case 'x' => s := s.(tunneling := true);
      case 'z' => s := s.(zeroCopy := !(|argv[i]| > 2 && argv[i][2] == '!'));
      case 'O' => s := s.(opaqueImages := true);
      case 'b' =>
        if !more { return; }
        var n := ScanOne(argv[i + 1], s.bitRate);
        s := s.(bitRate := n.value);
        if n.count == 0 { return; }
        next := i + 1;
      case 'a' =>
        if !more { return; }
        var n := ScanOne(argv[i + 1], s.focus);
        s := s.(focus := n.value);
        if n.count == 0 { return; }
        if s.focus > FOCUS_EDOF { return; }
        next := i + 1;
      case 'n' =>
        if !more { return; }
        var n := ScanOne(argv[i + 1], s.camera);
        s := s.(camera := n.value);
        if n.count == 0 { return; }
        next := i + 1;
      case _ => return;
    }
    ok := true;
  }

  /** The parser's loop.  No argument past the last is looked at. */
  method ParseCmdline(argv: seq<string>, initial: Settings) returns (outcome: Outcome)
    ensures outcome == Parse(if argv == [] then [] else argv[1..], false, initial)
  {
    hide OptionAction;
    var s, passed, i := initial, false, 1;
    while i < |argv|
      invariant 1 <= i
      invariant i <= |argv| || argv == []
      invariant argv != [] ==> Parse(argv[i..], passed, s) == Parse(argv[1..], false, initial)
      invariant argv == [] ==> s == initial
    {
      assert argv[i..][0] == argv[i] && argv[i..][1..] == argv[i + 1..];
      if !passed && IsOption(argv[i]) {
        if Letter(argv[i]) == '-' {
          passed := true;
        } else {
          var ok, t, next := Switch(argv, i, s);
          if !ok {
            return Refused(t);
          }
          assert argv[i..][1 + (next - i)..] == argv[next + 1..];
          s, i := t, next;
        }
      }
      i := i + 1;
    }
    return Accepted(s);
  }

  // ---------- printing ----------

  /** One option as the usage text spells it. */
  datatype Opt =
    | OutFile(file: string)
    | Format(format: string)
    | Area(rect: Rect)
    | ChangeEvery(seconds: uint32, change: Change)
    | Sleep(seconds: uint32)
    | Rate(num: uint32, den: Option<uint32>)
    | Tunneling
    | ZeroCopy(on: bool)
    | Opaque
    | BitRate(rate: uint32)
    | Focus(mode: uint32)
    | Camera(number: uint32)

  function Name(c: Change): string
    requires c != NoChange
  {
    match c
    case ImageEffect => "image_effect"
    case Rotation => "rotation"
    case Zoom => "zoom"
    case FocusMode => "focus"
    case Drc => "drc"
    case Hdr => "hdr"
    case Contrast => "contrast"
    case Brightness => "brightness"
    case Saturation => "saturation"
    case Sharpness => "sharpness"
  }

  /** What the parser accepts. */
  predicate Printable(o: Opt) {
    && (o.ChangeEvery? ==> o.change != NoChange)
    && (o.Focus? ==> o.mode <= FOCUS_EDOF)
  }

  /** Anything but the one spelling the parser would misread: a format like an option. */
  predicate Plain(o: Opt) {
    o.Format? ==> !IsOption(o.format)
  }

  function PrintRect(r: Rect): string {
    PrintInt(r.x) + ("," + (PrintInt(r.y) + ("," + (PrintInt(r.width) + ("," + PrintInt(r.height))))))
  }

  function Print(o: Opt): seq<string>
    requires Printable(o)
  {
    match o
    case OutFile(file) => ["-o", file]
    case Format(format) => ["-v", format]
    case Area(rect) => ["-r", PrintRect(rect)]
    case ChangeEvery(n, c) => ["-c", PrintInt(n), Name(c)]
    case Sleep(n) => ["-t", PrintInt(n)]
    case Rate(n, None) => ["-f", PrintInt(n)]
    case Rate(n, Some(d)) => ["-f", PrintInt(n) + ("/" + PrintInt(d))]
    case Tunneling => ["-x"]
    case ZeroCopy(on) => [if on then "-z" else "-z!"]
    case Opaque => ["-O"]
    case BitRate(n) => ["-b", PrintInt(n)]
    case Focus(n) => ["-a", PrintInt(n)]
    case Camera(n) => ["-n", PrintInt(n)]
  }

  function PrintAll(opts: seq<Opt>): seq<string>
    requires forall i :: 0 <= i < |opts| ==> Printable(opts[i])
  {
    if opts == [] then [] else Print(opts[0]) + PrintAll(opts[1..])
  }

  /** What each option means. */
  function Apply(o: Opt, s: Settings): Settings {
    match o
    case OutFile(file) => s.(uri := Some(file))
    case Format(format) => s.(vformat := format)
    case Area(rect) => s.(area := rect)
    case ChangeEvery(n, c) => s.(secondsPerChange := n, change := c)
    case Sleep(n) => s.(sleep := n)
    case Rate(n, d) => s.(rateNum := n, rateDen := if d.Some? then d.value else 1)
    case Tunneling => s.(tunneling := true)
    case ZeroCopy(on) => s.(zeroCopy := on)
    case Opaque => s.(opaqueImages := true)
    case BitRate(n) => s.(bitRate := n)
    case Focus(n) => s.(focus := n)
    case Camera(n) => s.(camera := n)
  }

  function ApplyAll(opts: seq<Opt>, s: Settings): Settings {
    if opts == [] then s else ApplyAll(opts[1..], Apply(opts[0], s))
  }

  // ---------- the round trip ----------

  lemma ScansAlone(n: int)
    ensures ScanInt(PrintInt(n)) == Got(n, [])
  {
    ScansPrinted(n, []);
    assert PrintInt(n) + [] == PrintInt(n);
  }

  lemma ScansRate(n: uint32, d: uint32, num: uint32)
    ensures ScanRate(PrintInt(n) + ("/" + PrintInt(d)), num) == Scanned((n, d), 2)
    ensures ScanRate(PrintInt(n), num) == Scanned((n, 1), 1)
  {
    var rest := "/" + PrintInt(d);
    ScansPrinted(n, rest);
    ScansAlone(n);
    ScansAlone(d);
    assert rest[1..] == PrintInt(d);
  }

  lemma ScansRect(r: Rect, before: Rect)
    ensures ScanRect(PrintRect(r), before) == Scanned(r, 4)
  {
    hide ScanInt, PrintInt;
    var h := PrintInt(r.height);
    var w := PrintInt(r.width) + ("," + h);
    var y := PrintInt(r.y) + ("," + w);
    ScansPrinted(r.x, "," + y);
    ScansPrinted(r.y, "," + w);
    ScansPrinted(r.width, "," + h);
    ScansAlone(r.height);
    assert ("," + y)[1..] == y && ("," + w)[1..] == w && ("," + h)[1..] == h;
  }

  lemma LookupName(c: Change)
    requires c != NoChange
    ensures Lookup(Name(c), 0) == Some(c) && !IsOption(Name(c))
  {
  }

  lemma PrintedIsNoOption(n: uint32)
    ensures !IsOption(PrintInt(n))
  {
  }

  /** The options that take one argument and step over it. */
  lemma ParsesOneArgument(o: Opt, s: Settings, rest: seq<string>)
    requires Printable(o) && !(o.Format? || o.ChangeEvery? || o.Tunneling? || o.ZeroCopy? || o.Opaque?)
    ensures |Print(o)| == 2 && IsOption(Print(o)[0]) && Letter(Print(o)[0]) != '-'
    ensures OptionAction(Print(o)[0], [Print(o)[1]] + rest, s) == Go(Apply(o, s), 1)
  {
    hide ScanInt, PrintInt, ScanRate, ScanRect;
    match o
    case OutFile(_) =>
    case Area(r) => ScansRect(r, s.area);
    case Sleep(n) => ScansAlone(n);
    case Rate(n, None) => ScansRate(n, 0, s.rateNum);
    case Rate(n, Some(d)) => ScansRate(n, d, s.rateNum);
    case BitRate(n) => ScansAlone(n);
    case Focus(n) => ScansAlone(n);
    case Camera(n) => ScansAlone(n);
  }

  lemma FormatParses(o: Opt, s: Settings, rest: seq<string>)
    requires o.Format? && Plain(o)
    ensures Parse(Print(o) + rest, false, s) == Parse(rest, false, Apply(o, s))
  {
    var args, v := Print(o) + rest, o.format;
    assert args[1..] == [v] + rest && ([v] + rest)[1..] == rest;
    assert OptionAction(args[0], args[1..], s) == Go(Apply(o, s), 0);
  }

  lemma ChangeParses(o: Opt, s: Settings, rest: seq<string>)
    requires o.ChangeEvery? && Printable(o)
    ensures Parse(Print(o) + rest, false, s) == Parse(rest, false, Apply(o, s))
  {
    hide ScanInt, PrintInt, Lookup, Name;
    var args, t, n, name := Print(o) + rest, Apply(o, s), PrintInt(o.seconds), Name(o.change);
    ScansAlone(o.seconds);
    LookupName(o.change);
    PrintedIsNoOption(o.seconds);
    assert args[1..] == [n, name] + rest;
    assert ([n, name] + rest)[1..] == [name] + rest && ([name] + rest)[1..] == rest;
    assert OptionAction(args[0], args[1..], s) == Go(t, 0);
    assert Parse(args, false, s) == Parse(args[1..], false, t);
    assert Parse([name] + rest, false, t) == Parse(rest, false, t);
  }

  /** Parsing what was printed applies the option and leaves the rest, although `-v` and `-c` leave
      their values to be skipped as non-options. */
  lemma OptionParses(o: Opt, s: Settings, rest: seq<string>)
    requires Printable(o) && Plain(o)
    ensures Parse(Print(o) + rest, false, s) == Parse(rest, false, Apply(o, s))
  {
    hide ScanInt, PrintInt, Lookup, Name;
    var args, t := Print(o) + rest, Apply(o, s);
    match o
    case Format(_) => FormatParses(o, s, rest);
    case ChangeEvery(_, _) => ChangeParses(o, s, rest);
    case Tunneling => assert args[1..] == rest;
    case ZeroCopy(_) => assert args[1..] == rest;
    case Opaque => assert args[1..] == rest;
    case _ =>
      ParsesOneArgument(o, s, rest);
      assert args[1..] == [Print(o)[1]] + rest && args[2..] == rest;
  }

  predicate AllPrintable(opts: seq<Opt>) {
    forall i :: 0 <= i < |opts| ==> Printable(opts[i])
  }

  predicate AllPlain(opts: seq<Opt>) {
    forall i :: 0 <= i < |opts| ==> Plain(opts[i])
  }

  /** Main theorem: any list of options, printed at the head of a command line, has the effect it says
      on the parsing of the rest. */
  lemma {:induction false} PrintedOptionsParse(opts: seq<Opt>, rest: seq<string>, s: Settings)
    requires AllPrintable(opts) && AllPlain(opts)
    ensures Parse(PrintAll(opts) + rest, false, s) == Parse(rest, false, ApplyAll(opts, s))
    decreases |opts|
  {
    hide Print, Apply;
    if opts == [] {
      assert PrintAll(opts) + rest == rest;
    } else {
      assert PrintAll(opts) + rest == Print(opts[0]) + (PrintAll(opts[1..]) + rest);
      OptionParses(opts[0], s, PrintAll(opts[1..]) + rest);
      PrintedOptionsParse(opts[1..], rest, Apply(opts[0], s));
    }
  }

  /** Alone they are accepted. */
  lemma PrintedOptionsAlone(opts: seq<Opt>, s: Settings)
    requires AllPrintable(opts) && AllPlain(opts)
    ensures Parse(PrintAll(opts), false, s) == Accepted(ApplyAll(opts, s))
  {
    PrintedOptionsParse(opts, [], s);
    assert PrintAll(opts) + [] == PrintAll(opts);
  }

  /** Options before the one that is refused keep their effect. */
  lemma RefusalKeepsEarlier(opts: seq<Opt>, option: string, rest: seq<string>, s: Settings)
    requires AllPrintable(opts) && AllPlain(opts) && IsOption(option) && Letter(option) != '-'
    requires OptionAction(option, rest, ApplyAll(opts, s)).Usage?
    ensures Parse(PrintAll(opts) + ([option] + rest), false, s)
         == Refused(OptionAction(option, rest, ApplyAll(opts, s)).settings)
  {
    hide OptionAction;
    PrintedOptionsParse(opts, [option] + rest, s);
    assert ([option] + rest)[1..] == rest;
  }

  // ---------- what a refusal leaves ----------

  /** Options that are refused after they have set something. */
  datatype Bad =
    | ShortRect(numbers: seq<int32>)
    | UnknownChange(seconds: uint32, name: string)
    | HighFocus(mode: uint32)
    | NoRate(text: string)

  predicate IsBad(b: Bad) {
    match b
    case ShortRect(numbers) => 1 <= |numbers| <= 3
    case UnknownChange(_, name) => Lookup(name, 0) == None
    case HighFocus(mode) => mode > FOCUS_EDOF
    case NoRate(text) => ScanInt(text) == NoMatch
  }

  function PrintList(numbers: seq<int32>): string {
    if numbers == [] then ""
    else if |numbers| == 1 then PrintInt(numbers[0])
    else PrintInt(numbers[0]) + ("," + PrintList(numbers[1..]))
  }

  function PrintBad(b: Bad): seq<string> {
    match b
    case ShortRect(numbers) => ["-r", PrintList(numbers)]
    case UnknownChange(n, name) => ["-c", PrintInt(n), name]
    case HighFocus(mode) => ["-a", PrintInt(mode)]
    case NoRate(text) => ["-f", text]
  }

  /** The numbers read so far, the seconds, the focus mode, the reset denominator; nothing else. */
  function Leaves(b: Bad, s: Settings): Settings
    requires IsBad(b)
  {
    match b
    case ShortRect(l) =>
      s.(area := Rect(l[0], if |l| > 1 then l[1] else s.area.y, if |l| > 2 then l[2] else s.area.width, s.area.height))
    case UnknownChange(n, _) => s.(secondsPerChange := n)
    case HighFocus(mode) => s.(focus := mode)
    case NoRate(_) => s.(rateDen := 1)
  }

  lemma ScansOne(x: int32, before: Rect)
    ensures ScanRect(PrintInt(x), before) == Scanned(before.(x := x), 1)
  {
    hide ScanInt, PrintInt;
    ScansAlone(x);
  }

  lemma ScansTwo(x: int32, y: int32, before: Rect)
    ensures ScanRect(PrintInt(x) + ("," + PrintInt(y)), before) == Scanned(before.(x := x, y := y), 2)
  {
    hide ScanInt, PrintInt;
    var more := "," + PrintInt(y);
    ScansPrinted(x, more);
    ScansAlone(y);
    assert more[1..] == PrintInt(y);
  }

  lemma ScansThree(x: int32, y: int32, w: int32, before: Rect)
    ensures ScanRect(PrintInt(x) + ("," + (PrintInt(y) + ("," + PrintInt(w)))), before)
         == Scanned(before.(x := x, y := y, width := w), 3)
  {
    hide ScanInt, PrintInt;
    var last := "," + PrintInt(w);
    var more := "," + (PrintInt(y) + last);
    ScansPrinted(x, more);
    ScansPrinted(y, last);
    ScansAlone(w);
    assert more[1..] == PrintInt(y) + last && last[1..] == PrintInt(w);
  }

  lemma ScansList(l: seq<int32>, before: Rect)
    requires 1 <= |l| <= 3
    ensures ScanRect(PrintList(l), before)
         == Scanned(Leaves(ShortRect(l), NO_SETTINGS.(area := before)).area, |l|)
  {
    hide ScanInt, PrintInt, ScanRect;
    if |l| == 1 {
      ScansOne(l[0], before);
    } else if |l| == 2 {
      assert PrintList(l[1..]) == PrintInt(l[1]);
      ScansTwo(l[0], l[1], before);
    } else {
      assert PrintList(l[1..][1..]) == PrintInt(l[2]);
      assert PrintList(l[1..]) == PrintInt(l[1]) + ("," + PrintInt(l[2]));
      ScansThree(l[0], l[1], l[2], before);
    }
  }

  lemma BadIsRefused(b: Bad, rest: seq<string>, s: Settings)
    requires IsBad(b)
    ensures OptionAction(PrintBad(b)[0], PrintBad(b)[1..] + rest, s) == Usage(Leaves(b, s))
  {
    hide ScanInt, PrintInt, ScanRect, PrintList;
    match b
    case ShortRect(l) => ScansList(l, s.area);
    case UnknownChange(n, _) => ScansAlone(n);
    case HighFocus(mode) => ScansAlone(mode);
    case NoRate(_) =>
  }

  /** What a refused option leaves, after any options before it and whatever follows it. */
  lemma RefusalLeaves(opts: seq<Opt>, b: Bad, rest: seq<string>, s: Settings)
    requires AllPrintable(opts) && AllPlain(opts) && IsBad(b)
    ensures Parse(PrintAll(opts) + (PrintBad(b) + rest), false, s) == Refused(Leaves(b, ApplyAll(opts, s)))
  {
    hide OptionAction, Leaves, PrintInt, PrintList;
    var args := PrintBad(b)[1..] + rest;
    assert PrintBad(b) + rest == [PrintBad(b)[0]] + args;
    BadIsRefused(b, rest, ApplyAll(opts, s));
    RefusalKeepsEarlier(opts, PrintBad(b)[0], args, s);
  }

  // ---------- what else is refused, and what is let pass ----------

  const KNOWN_LETTERS := "-ovrctfxzOban"
  const VALUE_LETTERS := "ovrtfban"

  lemma RefusedAsItIs(opts: seq<Opt>, option: string, rest: seq<string>, s: Settings)
    requires AllPrintable(opts) && AllPlain(opts) && IsOption(option) && Letter(option) != '-'
    requires OptionAction(option, rest, ApplyAll(opts, s)) == Usage(ApplyAll(opts, s))
    ensures Parse(PrintAll(opts) + ([option] + rest), false, s) == Refused(ApplyAll(opts, s))
  {
    hide OptionAction;
    RefusalKeepsEarlier(opts, option, rest, s);
  }

  /** An option that is not in the list, `-h` included, is refused and changes nothing. */
  lemma UnknownIsRefused(opts: seq<Opt>, option: string, rest: seq<string>, s: Settings)
    requires AllPrintable(opts) && AllPlain(opts) && IsOption(option) && Letter(option) !in KNOWN_LETTERS
    ensures Parse(PrintAll(opts) + ([option] + rest), false, s) == Refused(ApplyAll(opts, s))
  {
    RefusedAsItIs(opts, option, rest, s);
  }

  /** So is an option whose value, or second value, is missing. */
  lemma MissingIsRefused(opts: seq<Opt>, option: string, rest: seq<string>, s: Settings)
    requires AllPrintable(opts) && AllPlain(opts) && IsOption(option)
    requires (Letter(option) in VALUE_LETTERS && rest == []) || (Letter(option) == 'c' && |rest| < 2)
    ensures Parse(PrintAll(opts) + ([option] + rest), false, s) == Refused(ApplyAll(opts, s))
  {
    RefusedAsItIs(opts, option, rest, s);
  }

  /** Whether an option is refused because its value scans as `value`. */
  predicate NeedsNumber(letter: char, value: Scan) {
    (value == NoMatch && letter in "rctban") || (value == Eof && letter in "rct")
  }

  /** And one whose value is no number; where one number is a must, an empty value is none. */
  lemma NoNumberIsRefused(opts: seq<Opt>, option: string, text: string, rest: seq<string>, s: Settings)
    requires AllPrintable(opts) && AllPlain(opts) && IsOption(option)
    requires NeedsNumber(Letter(option), ScanInt(text))
    ensures Parse(PrintAll(opts) + ([option, text] + rest), false, s) == Refused(ApplyAll(opts, s))
  {
    hide OptionAction, ScanInt;
    NoNumberAction(option, text, rest, ApplyAll(opts, s));
    assert [option, text] + rest == [option] + ([text] + rest);
    RefusedAsItIs(opts, option, [text] + rest, s);
  }

  lemma NoNumberAction(option: string, text: string, rest: seq<string>, s: Settings)
    requires NeedsNumber(Letter(option), ScanInt(text))
    ensures OptionAction(option, [text] + rest, s) == Usage(s)
  {
    hide ScanInt, Lookup;
  }

  /** What `-b`, `-a`, `-n` and `-f` make of a value without any text. */
  lemma EmptyValueKeeps(option: string, text: string, rest: seq<string>, s: Settings)
    requires IsOption(option) && ScanInt(text) == Eof && Letter(option) in "banf"
    ensures Parse([option, text] + rest, false, s)
         == if Letter(option) == 'f' then Parse(rest, false, s.(rateDen := 1))
            else if Letter(option) == 'a' && s.focus > FOCUS_EDOF then Refused(s)
            else Parse(rest, false, s)
  {
    hide ScanInt;
    var args := [option, text] + rest;
    assert args[1..] == [text] + rest && args[2..] == rest;
  }

  /** Only the letter counts, and for `-z` whether a `!` follows it. */
  lemma LetterDecides(option: string, other: string, args: seq<string>, s: Settings)
    requires Letter(option) == Letter(other)
    requires Letter(option) == 'z' ==> (|option| > 2 && option[2] == '!' <==> |other| > 2 && other[2] == '!')
    ensures OptionAction(option, args, s) == OptionAction(other, args, s)
  {
    hide ScanOne, ScanRect, ScanRate, Lookup;
  }

  /** The focus modes are numbered up to nine. */
  lemma FocusModes(mode: uint32, s: Settings)
    ensures OptionAction("-a", [PrintInt(mode)], s)
         == if mode <= 9 then Go(s.(focus := mode), 1) else Usage(s.(focus := mode))
  {
    hide ScanInt, PrintInt;
    ScansAlone(mode);
  }

  /** Text behind a number is let pass. */
  lemma TrailingTextPasses(o: Opt, junk: string, rest: seq<string>, s: Settings)
    requires Printable(o) && (o.Sleep? || o.BitRate? || o.Focus? || o.Camera?) && !StartsWithDigit(junk)
    ensures Parse([Print(o)[0], Print(o)[1] + junk] + rest, false, s) == Parse(rest, false, Apply(o, s))
  {
    var args := [Print(o)[0], Print(o)[1] + junk] + rest;
    assert args[1..] == [Print(o)[1] + junk] + rest && args[2..] == rest;
    TrailingTextAction(o, junk, rest, s);
    hide OptionAction, PrintInt, Apply;
  }

  lemma TrailingTextAction(o: Opt, junk: string, rest: seq<string>, s: Settings)
    requires Printable(o) && (o.Sleep? || o.BitRate? || o.Focus? || o.Camera?) && !StartsWithDigit(junk)
    ensures OptionAction(Print(o)[0], [Print(o)[1] + junk] + rest, s) == Go(Apply(o, s), 1)
  {
    hide ScanInt, PrintInt;
    match o
    case Sleep(n) => ScansPrinted(n, junk);
    case BitRate(n) => ScansPrinted(n, junk);
    case Focus(n) => ScansPrinted(n, junk);
    case Camera(n) => ScansPrinted(n, junk);
  }

  /** Arguments that do not start with a dash are skipped, and after `--` all are. */
  lemma {:induction false} OthersAreSkipped(words: seq<string>, rest: seq<string>, s: Settings)
    requires forall i :: 0 <= i < |words| ==> !IsOption(words[i])
    ensures Parse(words + rest, false, s) == Parse(rest, false, s)
    ensures Parse(["--"] + rest, false, s) == Accepted(s)
  {
    assert (["--"] + rest)[1..] == rest;
    SkipsAfterDashes(rest, s);
    if words == [] {
      assert words + rest == rest;
    } else {
      assert (words + rest)[1..] == words[1..] + rest;
      OthersAreSkipped(words[1..], rest, s);
    }
  }

  /** A format that looks like an option is misread: here are settings and further options for which
      the round trip fails. */
  lemma MisreadFormat(format: string, s: Settings) returns (t: Settings, opts: seq<Opt>)
    requires IsOption(format)
    ensures AllPrintable(opts) && AllPlain(opts)
    ensures Parse(["-v", format] + PrintAll(opts), false, t) != Accepted(ApplyAll([Format(format)] + opts, t))
  {
    hide ScanOne, ScanRect, ScanRate, Lookup;
    t := s.(tunneling := false, zeroCopy := |format| > 2 && format[2] == '!', opaqueImages := false);
    opts := if Letter(format) == '-' then [Tunneling] else [];
    var args := ["-v", format] + PrintAll(opts);
    assert args[1..] == [format] + PrintAll(opts);
    var u := t.(vformat := format);
    assert OptionAction("-v", args[1..], t) == Go(u, 0);
    assert Parse(args, false, t) == Parse([format] + PrintAll(opts), false, u);
    var tail := [format] + PrintAll(opts);
    assert tail[1..] == PrintAll(opts);
    assert ([Format(format)] + opts)[1..] == opts;
    assert ApplyAll([Format(format)] + opts, t) == ApplyAll(opts, u);
    if Letter(format) == '-' {
      SkipsAfterDashes(PrintAll(opts), u);
      assert Parse(tail, false, u) == Parse(PrintAll(opts), true, u) == Accepted(u);
      assert opts[1..] == [] && ApplyAll(opts, u) == Apply(Tunneling, u);
    } else {
      assert PrintAll(opts) == [] && ApplyAll(opts, u) == u;
      var a := OptionAction(format, [], u);
      assert a.Usage? || (a.skip == 0 && a.settings != u);
      assert Parse(tail, false, u) == if a.Usage? then Refused(a.settings) else Parse([], false, a.settings);
    }
  }

  lemma {:induction false} SkipsAfterDashes(args: seq<string>, s: Settings)
    ensures Parse(args, true, s) == Accepted(s)
  {
    if args == [] {
    } else {
      SkipsAfterDashes(args[1..], s);
    }
  }

  /** Exactly the formats that do not start with a dash survive in every command line. */
  lemma FormatSurvives(format: string)
    ensures (forall s, opts | AllPrintable(opts) && AllPlain(opts) ::
               Parse(["-v", format] + PrintAll(opts), false, s) == Accepted(ApplyAll([Format(format)] + opts, s)))
            <==> !IsOption(format)
  {
    if IsOption(format) {
      var t, opts := MisreadFormat(format, NO_SETTINGS);
    } else {
      forall s, opts | AllPrintable(opts) && AllPlain(opts)
        ensures Parse(["-v", format] + PrintAll(opts), false, s) == Accepted(ApplyAll([Format(format)] + opts, s))
      {
        var all := [Format(format)] + opts;
        assert all[1..] == opts;
        PrintedOptionsAlone(all, s);
      }
    }
  }

  // ---------- whole settings ----------

  /** A choice of options: those whose flag is set. */
  function Chosen(choices: seq<(bool, Opt)>): seq<Opt> {
    if choices == [] then []
    else (if choices[0].0 then [choices[0].1] else []) + Chosen(choices[1..])
  }

  /** Every option there is for these settings, and whether it must be given. */
  function Basics(s: Settings): seq<(bool, Opt)> {
    [(true, Format(s.vformat)), (true, Area(s.area)), (true, Sleep(s.sleep)), (true, Rate(s.rateNum, Some(s.rateDen)))]
  }

  function Encoding(s: Settings): seq<(bool, Opt)> {
    [(true, ZeroCopy(s.zeroCopy)), (true, BitRate(s.bitRate)), (true, Camera(s.camera)), (s.tunneling, Tunneling)]
  }

  function Output(s: Settings): seq<(bool, Opt)> {
    [(s.opaqueImages, Opaque), (s.uri.Some?, OutFile(if s.uri.Some? then s.uri.value else []))]
  }

  function Testing(s: Settings): seq<(bool, Opt)> {
    [(s.change != NoChange, ChangeEvery(s.secondsPerChange, s.change)), (s.focus <= FOCUS_EDOF, Focus(s.focus))]
  }

  function OptionsFor(s: Settings): seq<Opt> {
    Chosen(Basics(s)) + (Chosen(Encoding(s)) + (Chosen(Output(s)) + Chosen(Testing(s))))
  }

  /** `s` differs from `base` only in what the options can say. */
  predicate Expressible(s: Settings, base: Settings) {
    && !base.tunneling && !base.opaqueImages && base.uri == None
    && (s.change == NoChange ==> s.secondsPerChange == base.secondsPerChange && base.change == NoChange)
    && (s.focus > FOCUS_EDOF ==> s.focus == base.focus)
  }

  lemma {:induction false} ApplyAllAppend(a: seq<Opt>, b: seq<Opt>, s: Settings)
    ensures ApplyAll(a + b, s) == ApplyAll(b, ApplyAll(a, s))
  {
    hide Apply;
    if a == [] {
      assert a + b == b;
    } else {
      assert (a + b)[1..] == a[1..] + b;
      ApplyAllAppend(a[1..], b, Apply(a[0], s));
    }
  }

  function ApplyIf(c: (bool, Opt), s: Settings): Settings {
    if c.0 then Apply(c.1, s) else s
  }

  lemma ChosenFirst(choices: seq<(bool, Opt)>, s: Settings)
    requires choices != []
    ensures ApplyAll(Chosen(choices), s) == ApplyAll(Chosen(choices[1..]), ApplyIf(choices[0], s))
  {
    hide Apply;
    if choices[0].0 {
      assert Chosen(choices)[1..] == Chosen(choices[1..]);
    } else {
      assert Chosen(choices) == Chosen(choices[1..]);
    }
  }

  lemma TwoChosen(c: (bool, Opt), d: (bool, Opt), s: Settings)
    ensures ApplyAll(Chosen([c, d]), s) == ApplyIf(d, ApplyIf(c, s))
  {
    ChosenFirst([c, d], s);
    assert [c, d][1..] == [d] && [d][1..] == [];
    hide Chosen, ApplyAll, ApplyIf;
    ChosenFirst([d], ApplyIf(c, s));
    NoneChosen(ApplyIf(d, ApplyIf(c, s)));
  }

  lemma FourChosen(a: (bool, Opt), b: (bool, Opt), c: (bool, Opt), d: (bool, Opt), s: Settings)
    ensures ApplyAll(Chosen([a, b, c, d]), s) == ApplyIf(d, ApplyIf(c, ApplyIf(b, ApplyIf(a, s))))
  {
    ChosenFirst([a, b, c, d], s);
    assert [a, b, c, d][1..] == [b, c, d] && [b, c, d][1..] == [c, d];
    hide Chosen, ApplyAll, ApplyIf;
    ChosenFirst([b, c, d], ApplyIf(a, s));
    TwoChosen(c, d, ApplyIf(b, ApplyIf(a, s)));
  }

  lemma NoneChosen(s: Settings)
    ensures ApplyAll(Chosen([]), s) == s
  {
  }

  lemma BasicsApply(s: Settings, t: Settings)
    ensures ApplyAll(Chosen(Basics(s)), t)
         == t.(vformat := s.vformat, area := s.area, sleep := s.sleep, rateNum := s.rateNum, rateDen := s.rateDen)
  {
    hide ApplyAll, Chosen;
    var c := Basics(s);
    FourChosen(c[0], c[1], c[2], c[3], t);
  }

  lemma EncodingApply(s: Settings, t: Settings)
    requires !t.tunneling
    ensures ApplyAll(Chosen(Encoding(s)), t)
         == t.(zeroCopy := s.zeroCopy, bitRate := s.bitRate, camera := s.camera, tunneling := s.tunneling)
  {
    hide ApplyAll, Chosen;
    var c := Encoding(s);
    FourChosen(c[0], c[1], c[2], c[3], t);
  }

  lemma OutputApply(s: Settings, t: Settings)
    requires !t.opaqueImages && t.uri == None
    ensures ApplyAll(Chosen(Output(s)), t) == t.(opaqueImages := s.opaqueImages, uri := s.uri)
  {
    hide ApplyAll, Chosen;
    TwoChosen(Output(s)[0], Output(s)[1], t);
  }

  lemma TestingApply(s: Settings, t: Settings)
    requires s.change == NoChange ==> s.secondsPerChange == t.secondsPerChange && t.change == NoChange
    requires s.focus > FOCUS_EDOF ==> s.focus == t.focus
    ensures ApplyAll(Chosen(Testing(s)), t)
         == t.(change := s.change, secondsPerChange := s.secondsPerChange, focus := s.focus)
  {
    hide ApplyAll, Chosen;
    TwoChosen(Testing(s)[0], Testing(s)[1], t);
  }

  /** The options for `s` turn the defaults into `s`. */
  lemma OptionsApply(s: Settings, base: Settings)
    requires Expressible(s, base)
    ensures ApplyAll(OptionsFor(s), base) == s
  {
    hide ApplyAll, Chosen, Basics, Encoding, Output, Testing;
    BasicsApply(s, base);
    var s4 := base.(vformat := s.vformat, area := s.area, sleep := s.sleep, rateNum := s.rateNum, rateDen := s.rateDen);
    EncodingApply(s, s4);
    var s8 := s4.(zeroCopy := s.zeroCopy, bitRate := s.bitRate, camera := s.camera, tunneling := s.tunneling);
    OutputApply(s, s8);
    var s10 := s8.(opaqueImages := s.opaqueImages, uri := s.uri);
    TestingApply(s, s10);
    ApplyAllAppend(Chosen(Basics(s)), Chosen(Encoding(s)) + (Chosen(Output(s)) + Chosen(Testing(s))), base);
    ApplyAllAppend(Chosen(Encoding(s)), Chosen(Output(s)) + Chosen(Testing(s)), s4);
    ApplyAllAppend(Chosen(Output(s)), Chosen(Testing(s)), s8);
  }

  lemma {:induction false} ChosenAreGood(choices: seq<(bool, Opt)>)
    requires forall i :: 0 <= i < |choices| && choices[i].0 ==> Printable(choices[i].1) && Plain(choices[i].1)
    ensures AllPrintable(Chosen(choices)) && AllPlain(Chosen(choices))
  {
    if choices == [] {
    } else {
      ChosenAreGood(choices[1..]);
    }
  }

  lemma OptionsAreGood(s: Settings)
    requires !IsOption(s.vformat)
    ensures AllPrintable(OptionsFor(s)) && AllPlain(OptionsFor(s))
  {
    hide Chosen;
    ChosenAreGood(Basics(s));
    ChosenAreGood(Encoding(s));
    ChosenAreGood(Output(s));
    ChosenAreGood(Testing(s));
  }

  /** Settings survive the command line: printed as options and parsed over the defaults, any settings
      the options can express come back, provided the format does not look like an option. */
  lemma SettingsRoundTrip(s: Settings, base: Settings)
    requires Expressible(s, base) && !IsOption(s.vformat)
    ensures AllPrintable(OptionsFor(s))
    ensures Parse(PrintAll(OptionsFor(s)), false, base) == Accepted(s)
  {
    hide Print, Parse, OptionsFor;
    OptionsAreGood(s);
    PrintedOptionsAlone(OptionsFor(s), base);
    OptionsApply(s, base);
  }
}
