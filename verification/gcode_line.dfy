// What the parser makes of a character: its state and the rules by which that
// changes.  Text is a string of bytes; a char stands for its low eight bits.
module GcodeLine {
  import opened Arithmetic
  import opened Base64
  import opened Bits
  import Lengths

  datatype Phase =
    | Start | Letter | NumberOrSign | FirstDigit | AnotherDigit | SubDigits
    | Sextet1 | Sextet2 | Sextet3 | Sextet4
    | Error | BadChecksum | Comment | IgnoreRest | Checksum | Name | Ticked | DoubleTicked

  datatype Reply = NextChar | Done | FormatError | ChecksumError

  const MAX_BYTES := 63
  const MAX_NAME := 16
  const SCALE_DIGITS := 3
  const ONE := 1000

  datatype Line = Line(
    phase: Phase,
    letter: nat,               // of the current word; A is 0
    codes: set<nat>,           // the letters seen,
    got: set<nat>,             // and those that came with a number
    numbers: seq<int>,
    integers: seq<int>,
    current: nat,
    negative: bool,
    digits: nat,
    subdigits: nat,
    bytes: seq<Byte>,
    len: nat,
    name: string,
    calcsum: Byte,
    transum: Byte,
    sumChars: Byte
  )

  predicate ValidLine(s: Line) {
    && s.letter < 26 && |s.numbers| == 26 && |s.integers| == 26
    && s.current < U32 && s.digits <= 10 && s.subdigits <= SCALE_DIGITS
    && |s.bytes| == MAX_BYTES && s.len <= MAX_BYTES
    && (s.phase != Error && s.phase != Start ==> s.len < MAX_BYTES)
    && (s.phase == FirstDigit ==> s.digits == 0)
  }

  predicate IsDigit(c: char) { '0' <= c <= '9' }
  predicate IsWhite(c: char) { c == ' ' || c == '\t' }
  predicate IsLetter(c: char) { 'A' <= c <= 'Z' }

  function DigitValue(c: char): (d: nat)
    ensures IsDigit(c) ==> d == c as int - '0' as int < 10
  {
    if IsDigit(c) then c as int - '0' as int else 0
  }

  function Code(c: char): Byte { c as int % 256 }

  function Zeroed<T>(n: nat, zero: T): (s: seq<T>)
    ensures |s| == n
  {
    seq(n, _ => zero)
  }

  // The state at the beginning of a line.
  function Fresh(): (s: Line)
    ensures ValidLine(s)
  {
    Line(Letter, 0, {}, {}, Zeroed(26, 0), Zeroed(26, 0), 0, false, 0, 0, Zeroed<Byte>(MAX_BYTES, 0), 0, "", 0, 0, 0)
  }

  // Where a character can take the parser within a line: none but those of a
  // checksum has an effect on that.
  predicate Went(s: Line, r: (Line, Reply)) {
    && ValidLine(r.0) && r.0.phase != Start && r.0.phase != BadChecksum && (r.1 == NextChar || r.1 == FormatError)
    && r.0.calcsum == s.calcsum
    && (s.phase != Checksum ==> r.0.phase != Checksum && r.0.transum == s.transum && r.0.sumChars == s.sumChars)
  }

  function Fail(s: Line): (Line, Reply) { (s.(phase := Error), FormatError) }
  function Go(s: Line, p: Phase): (Line, Reply) { (s.(phase := p), NextChar) }

  // ---- Numbers ----

  datatype Option<T> = None | Some(value: T)

  // To thousandths.  The test is one for unsigned numbers, but the number has
  // a sign.
  function Scaled(n: int, subdigits: nat): Option<int>
    decreases SCALE_DIGITS - subdigits
  {
    if subdigits >= SCALE_DIGITS then Some(n)
    else if n > 429496729 then None
    else Scaled(Signed32(n * 10), subdigits + 1)
  }

  function Append(s: Line, c: char): Line {
    s.(current := Unsigned32(Unsigned32(s.current * 10) + DigitValue(c)))
  }

  // Store what has been read of a number, and go on.
  function Store(s: Line): (r: (Line, Reply))
    requires ValidLine(s) && s.phase != Start && s.phase != BadChecksum
    ensures Went(s, r) && r.0.len == s.len && r.0.phase in {s.phase, Error}
  {
    var scaled := Scaled(Signed32(s.current), s.subdigits);
    if scaled.None? then Fail(s)
    else
      var n := if s.negative then Signed32(-scaled.value) else scaled.value;
      (s.(numbers := s.numbers[s.letter := n],
          integers := s.integers[s.letter := Lengths.TruncDiv(n, ONE)],
          got := s.got + {s.letter}), NextChar)
  }

  // ---- The phases ----

  function InLetter(s: Line, c: char): (r: (Line, Reply))
    requires ValidLine(s) && s.phase == Letter
    ensures Went(s, r)
  {
    if IsLetter(c) then
      var letter := c as int - 'A' as int;
      (s.(letter := letter, codes := s.codes + {letter}, phase := NumberOrSign), NextChar)
    else if IsWhite(c) then (s, NextChar)
    else if c == ';' then Go(s, IgnoreRest)
    else if c == '(' then Go(s, Comment)
    else if c == '$' then Go(s, Sextet1)
    else if c == '\'' then Go(s, Ticked)
    else if c == '"' then Go(s, DoubleTicked)
    else if s.name == "" then (s.(name := [c], phase := Name), NextChar)
    else Fail(s)
  }

  function InNumberOrSign(s: Line, c: char): (r: (Line, Reply))
    requires ValidLine(s) && s.phase == NumberOrSign
    ensures Went(s, r)
  {
    if IsWhite(c) then Go(s, Letter)
    else if !(IsDigit(c) || c == '+' || c == '-') then
      if s.name != "" then Fail(s)
      else (s.(name := [s.letter as char + 'A', c], phase := Name), NextChar)
    else
      var s := s.(phase := FirstDigit, current := 0, digits := 0, subdigits := 0, negative := c == '-');
      if c == '-' || c == '+' then (s, NextChar) else InFirstDigit(s, c)
  }

  function InFirstDigit(s: Line, c: char): (r: (Line, Reply))
    requires ValidLine(s) && s.phase == FirstDigit
    ensures Went(s, r)
  {
    if IsWhite(c) then Go(s, Letter)
    else if !IsDigit(c) then Fail(s)
    else Store(s.(current := DigitValue(c), digits := s.digits + 1, phase := AnotherDigit))
  }

  function AfterNumber(c: char): Phase {
    if c == '.' then SubDigits
    else if IsWhite(c) then Letter
    else if c == ';' then IgnoreRest
    else if c == '(' then Comment
    else if c == '$' then Sextet1
    else if c == '\'' then Ticked
    else if c == '"' then DoubleTicked
    else Error
  }

  function InAnotherDigit(s: Line, c: char): (r: (Line, Reply))
    requires ValidLine(s) && s.phase == AnotherDigit
    ensures Went(s, r)
  {
    if IsDigit(c) then
      if s.digits > 9 then Fail(s) else Store(Append(s, c).(digits := s.digits + 1))
    else if AfterNumber(c) == Error then Fail(s)
    else Store(s.(phase := AfterNumber(c)))
  }

  function InSubDigits(s: Line, c: char): (r: (Line, Reply))
    requires ValidLine(s) && s.phase == SubDigits
    ensures Went(s, r)
  {
    if IsDigit(c) then
      if s.subdigits >= SCALE_DIGITS || s.digits + s.subdigits > 9 then (s, NextChar)
      else Store(Append(s, c).(subdigits := s.subdigits + 1))
    else if IsWhite(c) then Go(s, Letter)
    else Fail(s)
  }

  function SetByte(s: Line, b: Byte): Line
    requires ValidLine(s) && s.len < MAX_BYTES
  {
    s.(bytes := s.bytes[s.len := b])
  }

  // Shifted left within a byte.
  function Left(b: Byte, factor: nat): Byte { b * factor % 256 }

  function Completed(s: Line, low: Byte): Line
    requires ValidLine(s) && s.len < MAX_BYTES
  {
    SetByte(s, OrByte(s.bytes[s.len], low)).(len := s.len + 1)
  }

  // The bits that complete a byte, and the beginning of the next one.
  function NextByte(s: Line, low: Byte, high: Byte, next: Phase): (r: (Line, Reply))
    requires ValidLine(s) && s.len < MAX_BYTES && next in {Sextet3, Sextet4}
    ensures Went(s, r)
  {
    var t := Completed(s, low);
    if t.len >= MAX_BYTES then Fail(t) else Go(t.(bytes := t.bytes[t.len := high]), next)
  }

  function InSextet(s: Line, c: char): (r: (Line, Reply))
    requires ValidLine(s) && s.phase in {Sextet1, Sextet2, Sextet3, Sextet4}
    ensures Went(s, r)
  {
    var b := Value64(c);
    if s.phase == Sextet1 && IsWhite(c) then Go(s, Letter)
    else if s.phase == Sextet3 && c == '=' then Go(s, Sextet4)
    else if s.phase == Sextet4 && c == '=' then Go(s, Sextet1)
    else if b > 63 then Fail(s)
    else if s.phase == Sextet1 then Go(SetByte(s, Left(b, 4)), Sextet2)
    else if s.phase == Sextet2 then NextByte(s, b / 16, Left(b, 16), Sextet3)
    else if s.phase == Sextet3 then NextByte(s, b / 4, Left(b, 64), Sextet4)
    else LastOfFour(s, b)
  }

  function LastOfFour(s: Line, b: Byte): (r: (Line, Reply))
    requires ValidLine(s) && s.len < MAX_BYTES
    ensures Went(s, r)
  {
    var t := Completed(s, b);
    if t.len >= MAX_BYTES then Fail(t) else Go(t, Sextet1)
  }

  function InChecksum(s: Line, c: char): (r: (Line, Reply))
    requires ValidLine(s) && s.phase == Checksum
    ensures Went(s, r)
  {
    if c == ';' then Go(s, IgnoreRest)
    else if c == '(' then Go(s, Comment)
    else if IsDigit(c) && s.transum <= 25 then
      (s.(sumChars := (s.sumChars + 1) % 256, transum := (s.transum * 10 + DigitValue(c)) % 256), NextChar)
    else Fail(s)
  }

  // A file name ends at its quote, or without one at white space.
  function InName(s: Line, c: char): (r: (Line, Reply))
    requires ValidLine(s) && s.phase in {Name, Ticked, DoubleTicked}
    ensures Went(s, r)
  {
    if (s.phase == DoubleTicked && c == '"') || (s.phase == Ticked && c == '\'') || (s.phase == Name && IsWhite(c)) then
      Go(s, Letter)
    else
      (s.(name := s.name + [c]), if |s.name| + 1 < MAX_NAME then NextChar else FormatError)
  }

  function Interpret(s: Line, c: char): (r: (Line, Reply))
    requires ValidLine(s)
    ensures Went(s, r)
  {
    match s.phase
    case Letter => InLetter(s, c)
    case NumberOrSign => InNumberOrSign(s, c)
    case FirstDigit => InFirstDigit(s, c)
    case AnotherDigit => InAnotherDigit(s, c)
    case SubDigits => InSubDigits(s, c)
    case Sextet1 => InSextet(s, c)
    case Sextet2 => InSextet(s, c)
    case Sextet3 => InSextet(s, c)
    case Sextet4 => InSextet(s, c)
    case Comment => Go(s, if c == ')' then Letter else Comment)
    case Error => (s, FormatError)
    case Checksum => InChecksum(s, c)
    case IgnoreRest => (s, NextChar)
    case Name => InName(s, c)
    case Ticked => InName(s, c)
    case DoubleTicked => InName(s, c)
    case Start => Fail(s)
    case BadChecksum => Fail(s)
  }

  // ---- Lines ----

  function EndPhase(s: Line): Phase {
    if s.sumChars != 0 then if s.transum == s.calcsum then s.phase else BadChecksum
    else if s.len != 0 then BadChecksum
    else s.phase
  }

  function EndReply(s: Line): Reply {
    if EndPhase(s) == Error then FormatError
    else if EndPhase(s) == BadChecksum then ChecksumError
    else Done
  }

  function Summed(s: Line, c: char): (t: Line)
    ensures ValidLine(s) ==> ValidLine(t)
  {
    if s.phase != Checksum && s.sumChars == 0 then s.(calcsum := XorByte(s.calcsum, Code(c))) else s
  }

  function Begun(s: Line): (t: Line)
    ensures ValidLine(s) ==> ValidLine(t) && t.phase != Start
  {
    if s.phase == Start then Fresh() else s
  }

  function NextBegun(s: Line, c: char): (r: (Line, Reply))
    requires ValidLine(s) && s.phase != Start
    ensures ValidLine(r.0)
  {
    if c == '\r' then (s, NextChar)
    else if c == '\n' then (s.(phase := Start), EndReply(s))
    else if c == '*' && s.phase != Error then Go(s, Checksum)
    else Interpret(Summed(s, c), c)
  }

  // process_char: a command is processed when the reply is Done, with what
  // the line has brought so far.
  function Next(s: Line, c: char): (r: (Line, Reply))
    requires ValidLine(s)
    ensures ValidLine(r.0)
  {
    NextBegun(Begun(s), c)
  }

  function RasterOf(s: Line): seq<Byte> {
    if s.len <= |s.bytes| then s.bytes[..s.len] else []
  }
}
