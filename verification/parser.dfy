// The parser: it takes a line apart character by character.
module Parser {
  import opened Arithmetic
  import opened Base64
  import opened Bits
  import opened GcodeLine
  import Lengths

  class GcodeParser {
    var state: Phase
    var lastLetter: nat
    var codesSeen: set<nat>
    var numbersGot: set<nat>
    const numbers: array<int>
    const integers: array<int>
    var currentInt: nat
    var isNegative: bool
    var digits: nat
    var subdigits: nat
    const base64Bytes: array<Byte>
    var base64Len: nat
    var filename: string
    var calcsum: Byte
    var transum: Byte
    var checksumChars: Byte
    var rasterData: seq<Byte>  // handed on to the raster ring
    ghost var commands: seq<Line>  // lines for which process_command ran

    ghost function State(): Line
      reads this, numbers, integers, base64Bytes
    {
      Line(state, lastLetter, codesSeen, numbersGot, numbers[..], integers[..], currentInt, isNegative, digits, subdigits,
           base64Bytes[..], base64Len, filename, calcsum, transum, checksumChars)
    }

    ghost predicate Valid()
      reads this, numbers, integers, base64Bytes
    {
      numbers != integers && ValidLine(State())
    }

    ghost predicate Idle()
      reads this, numbers, integers, base64Bytes
    {
      Valid() && state == Start
    }

    constructor ()
      ensures Valid() && State().phase == Start && rasterData == [] && commands == []
      ensures fresh(numbers) && fresh(integers) && fresh(base64Bytes)
    {
      state := Start;
      lastLetter, codesSeen, numbersGot, currentInt, isNegative := 0, {}, {}, 0, false;
      digits, subdigits, base64Len, filename := 0, 0, 0, "";
      calcsum, transum, checksumChars := 0, 0, 0;
      rasterData, commands := [], [];
      numbers := new int[26];
      integers := new int[26];
      base64Bytes := new Byte[MAX_BYTES];
    }

    method Reinit()
      requires Valid()
      modifies this`state, this`lastLetter, this`codesSeen, this`numbersGot, this`currentInt, this`isNegative, this`digits
      modifies this`subdigits, this`base64Len, this`filename, this`calcsum, this`transum, this`checksumChars
      modifies numbers, integers, base64Bytes
      ensures Valid() && State() == Fresh()
    {
      ClearCounters();
      ClearBuffers();
      state := Letter;
    }

    method ClearCounters()
      modifies this`lastLetter, this`codesSeen, this`numbersGot, this`currentInt, this`isNegative, this`digits
      modifies this`subdigits, this`base64Len, this`filename, this`calcsum, this`transum, this`checksumChars
      ensures lastLetter == 0 && codesSeen == {} && numbersGot == {} && currentInt == 0 && !isNegative
      ensures digits == 0 && subdigits == 0 && base64Len == 0 && filename == "" && calcsum == transum == checksumChars == 0
    {
      lastLetter, codesSeen, numbersGot, currentInt, isNegative := 0, {}, {}, 0, false;
      digits, subdigits, base64Len, filename := 0, 0, 0, "";
      calcsum, transum, checksumChars := 0, 0, 0;
    }

    method ClearBuffers()
      requires numbers.Length == integers.Length == 26 && base64Bytes.Length == MAX_BYTES && numbers != integers
      modifies numbers, integers, base64Bytes
      ensures numbers[..] == Zeroed(26, 0) && integers[..] == Zeroed(26, 0)
      ensures base64Bytes[..] == Zeroed<Byte>(MAX_BYTES, 0)
    {
      Clear(numbers, 0);
      Clear(integers, 0);
      Clear<Byte>(base64Bytes, 0);
    }

    // The end of a line.
    method EndOfLine() returns (reply: Reply)
      requires Valid() && state != Start
      modifies this`state, this`rasterData, this`commands
      ensures Valid() && State() == old(State()).(phase := Start)
      ensures reply == EndReply(old(State()))
      ensures rasterData == old(rasterData) + if reply == Done then RasterOf(old(State())) else []
      ensures commands == old(commands) + if reply == Done then [old(State())] else []
    {
      ghost var line := State();
      if checksumChars != 0 {
        if transum != calcsum {
          state := BadChecksum;
        }
      } else if base64Len != 0 {
        state := BadChecksum;
      }
      if state == Error {
        reply := FormatError;
      } else if state == BadChecksum {
        reply := ChecksumError;
      } else {
        TransferRaster();
        commands := commands + [line];
        reply := Done;
      }
      state := Start;
    }

    method TransferRaster()
      requires base64Len <= base64Bytes.Length
      modifies this`rasterData
      ensures rasterData == old(rasterData) + base64Bytes[..base64Len]
    {
      for b := 0 to base64Len
        invariant rasterData == old(rasterData) + base64Bytes[..b]
      {
        rasterData := rasterData + [base64Bytes[b]];
      }
    }

    method LetterChar(c: char) returns (reply: Reply)
      requires Valid() && state == Letter
      modifies this`state, this`lastLetter, this`codesSeen, this`filename
      ensures (State(), reply) == InLetter(old(State()), c)
    {
      reply := NextChar;
      if IsLetter(c) {
        lastLetter := c as int - 'A' as int;
        codesSeen := codesSeen + {lastLetter};
        state := NumberOrSign;
      } else if IsWhite(c) {
      } else if c == ';' {
        state := IgnoreRest;
      } else if c == '(' {
        state := Comment;
      } else if c == '$' {
        state := Sextet1;
      } else if c == '\'' {
        state := Ticked;
      } else if c == '"' {
        state := DoubleTicked;
      } else if filename == "" {
        state := Name;
        filename := [c];
      } else {
        state := Error;
        reply := FormatError;
      }
    }

    // Scale what has been read to thousandths, and store it.
    method StoreNumber() returns (reply: Reply)
      requires Valid() && state != Start && state != BadChecksum
      modifies this`state, this`numbersGot, numbers, integers
      ensures (State(), reply) == Store(old(State()))
    {
      var myint := Signed32(currentInt);
      var subdigs := subdigits;
      while subdigs < SCALE_DIGITS
        invariant subdigits <= subdigs <= SCALE_DIGITS
        invariant Scaled(myint, subdigs) == Scaled(Signed32(currentInt), subdigits)
        invariant State() == old(State())
      {
        if myint > 429496729 {
          state := Error;
          return FormatError;
        }
        myint := Signed32(myint * 10);
        subdigs := subdigs + 1;
      }
      if isNegative {
        myint := Signed32(-myint);
      }
      numbers[lastLetter] := myint;
      integers[lastLetter] := Lengths.TruncDiv(myint, ONE);
      numbersGot := numbersGot + {lastLetter};
      reply := NextChar;
    }

    method FirstDigitChar(c: char) returns (reply: Reply)
      requires Valid() && state == FirstDigit
      modifies this`state, this`currentInt, this`digits, this`numbersGot, numbers, integers
      ensures (State(), reply) == InFirstDigit(old(State()), c)
    {
      hide Store;
      if IsWhite(c) {
        state := Letter;
        return NextChar;
      } else if !IsDigit(c) {
        state := Error;
        return FormatError;
      }
      currentInt := DigitValue(c);
      digits := digits + 1;
      state := AnotherDigit;
      reply := StoreNumber();
    }

    method NumberOrSignChar(c: char) returns (reply: Reply)
      requires Valid() && state == NumberOrSign
      modifies this`state, this`currentInt, this`digits, this`subdigits, this`isNegative, this`filename, this`numbersGot, numbers, integers
      ensures (State(), reply) == InNumberOrSign(old(State()), c)
    {
      hide InFirstDigit;
      reply := NextChar;
      if IsWhite(c) {
        state := Letter;
      } else if !(IsDigit(c) || c == '+' || c == '-') {
        if filename != "" {
          state := Error;
          return FormatError;
        }
        state := Name;
        filename := [lastLetter as char + 'A', c];
      } else {
        state := FirstDigit;
        currentInt, digits, subdigits := 0, 0, 0;
        isNegative := c == '-';
        if c != '-' && c != '+' {
          reply := FirstDigitChar(c);
        }
      }
    }

    method AddDigit(c: char)
      requires Valid() && IsDigit(c)
      modifies this`currentInt
      ensures State() == Append(old(State()), c)
    {
      currentInt := Unsigned32(currentInt * 10);
      currentInt := Unsigned32(currentInt + DigitValue(c));
    }

    method AnotherDigitChar(c: char) returns (reply: Reply)
      requires Valid() && state == AnotherDigit
      modifies this`state, this`currentInt, this`digits, this`numbersGot, numbers, integers
      ensures (State(), reply) == InAnotherDigit(old(State()), c)
    {
      hide Store, Unsigned32;
      if IsDigit(c) {
        if digits > 9 {
          state := Error;
          return FormatError;
        }
        AddDigit(c);
        digits := digits + 1;
      } else {
        state := AfterNumber(c);
        if state == Error {
          return FormatError;
        }
      }
      reply := StoreNumber();
    }

    method AddSubdigit(c: char)
      requires Valid() && state == SubDigits && IsDigit(c) && subdigits < SCALE_DIGITS
      modifies this`currentInt, this`subdigits
      ensures Valid() && State() == Append(old(State()), c).(subdigits := old(subdigits) + 1)
    {
      hide Unsigned32;
      AddDigit(c);
      subdigits := subdigits + 1;
    }

    method StoreSubdigit(c: char) returns (reply: Reply)
      requires Valid() && state == SubDigits && IsDigit(c) && subdigits < SCALE_DIGITS
      modifies this`state, this`currentInt, this`subdigits, this`numbersGot, numbers, integers
      ensures (State(), reply) == Store(Append(old(State()), c).(subdigits := old(subdigits) + 1))
    {
      hide Store, Append;
      AddSubdigit(c);
      reply := StoreNumber();
    }

    method SubDigitChar(c: char) returns (reply: Reply)
      requires Valid() && state == SubDigits
      modifies this`state, this`currentInt, this`subdigits, this`numbersGot, numbers, integers
      ensures (State(), reply) == InSubDigits(old(State()), c)
    {
      hide Store, Append, InLetter, InFirstDigit, InAnotherDigit;
      if IsDigit(c) {
        if subdigits >= SCALE_DIGITS || digits + subdigits > 9 {
          return NextChar;
        }
        reply := StoreSubdigit(c);
      } else if IsWhite(c) {
        state := Letter;
        reply := NextChar;
      } else {
        state := Error;
        reply := FormatError;
      }
    }

    method CompleteByte(low: Byte)
      requires Valid() && base64Len < MAX_BYTES
      modifies this`base64Len, base64Bytes
      ensures State() == Completed(old(State()), low)
    {
      base64Bytes[base64Len] := OrByte(base64Bytes[base64Len], low);
      base64Len := base64Len + 1;
    }

    // Complete a byte, and begin the next one, if there is room.
    method AddSextet(low: Byte, high: Byte, next: Phase) returns (reply: Reply)
      requires Valid() && base64Len < MAX_BYTES && next in {Sextet3, Sextet4}
      modifies this`state, this`base64Len, base64Bytes
      ensures (State(), reply) == NextByte(old(State()), low, high, next)
    {
      CompleteByte(low);
      if base64Len >= base64Bytes.Length {
        state := Error;
        return FormatError;
      }
      base64Bytes[base64Len] := high;
      state := next;
      reply := NextChar;
    }

    method LastSextet(b: Byte) returns (reply: Reply)
      requires Valid() && base64Len < MAX_BYTES
      modifies this`state, this`base64Len, base64Bytes
      ensures (State(), reply) == LastOfFour(old(State()), b)
    {
      CompleteByte(b);
      if base64Len >= base64Bytes.Length {
        state := Error;
        return FormatError;
      }
      state := Sextet1;
      reply := NextChar;
    }

    method SextetChar(c: char) returns (reply: Reply)
      requires Valid() && state in {Sextet1, Sextet2, Sextet3, Sextet4}
      modifies this`state, this`base64Len, base64Bytes
      ensures (State(), reply) == InSextet(old(State()), c)
    {
      reply := NextChar;
      if state == Sextet1 && IsWhite(c) {
        state := Letter;
        return;
      } else if state == Sextet3 && c == '=' {
        state := Sextet4;
        return;
      } else if state == Sextet4 && c == '=' {
        state := Sextet1;
        return;
      }
      var b := Value64(c);
      if b > 63 {
        state := Error;
        reply := FormatError;
      } else if state == Sextet1 {
        base64Bytes[base64Len] := Left(b, 4);
        state := Sextet2;
      } else if state == Sextet2 {
        reply := AddSextet(b / 16, Left(b, 16), Sextet3);
      } else if state == Sextet3 {
        reply := AddSextet(b / 4, Left(b, 64), Sextet4);
      } else {
        reply := LastSextet(b);
      }
    }

    method ChecksumChar(c: char) returns (reply: Reply)
      requires Valid() && state == Checksum
      modifies this`state, this`transum, this`checksumChars
      ensures (State(), reply) == InChecksum(old(State()), c)
    {
      reply := NextChar;
      if c == ';' {
        state := IgnoreRest;
      } else if c == '(' {
        state := Comment;
      } else if IsDigit(c) && transum <= 25 {
        checksumChars := (checksumChars + 1) % 256;
        transum := (transum * 10 + DigitValue(c)) % 256;
      } else {
        state := Error;
        reply := FormatError;
      }
    }

    method NameChar(c: char) returns (reply: Reply)
      requires Valid() && state in {Name, Ticked, DoubleTicked}
      modifies this`state, this`filename
      ensures (State(), reply) == InName(old(State()), c)
    {
      if (state == DoubleTicked && c == '"') || (state == Ticked && c == '\'') || (state == Name && IsWhite(c)) {
        state := Letter;
        return NextChar;
      }
      filename := filename + [c];
      reply := if |filename| < MAX_NAME then NextChar else FormatError;
    }

    method InterpretChar(c: char) returns (reply: Reply)
      requires Valid()
      modifies this`state, this`lastLetter, this`codesSeen, this`numbersGot, this`currentInt, this`isNegative, this`digits
      modifies this`subdigits, this`base64Len, this`filename, this`transum, this`checksumChars
      modifies numbers, integers, base64Bytes
      ensures (State(), reply) == Interpret(old(State()), c)
    {
      hide InLetter, InNumberOrSign, InFirstDigit, InAnotherDigit, InSubDigits, InSextet, InChecksum, InName;
      reply := NextChar;
      match state {
        case Letter => reply := LetterChar(c);
        case NumberOrSign => reply := NumberOrSignChar(c);
        case FirstDigit => reply := FirstDigitChar(c);
        case AnotherDigit => reply := AnotherDigitChar(c);
        case SubDigits => reply := SubDigitChar(c);
        case Sextet1 => reply := SextetChar(c);
        case Sextet2 => reply := SextetChar(c);
        case Sextet3 => reply := SextetChar(c);
        case Sextet4 => reply := SextetChar(c);
        case Comment => if c == ')' { state := Letter; }
        case Error => reply := FormatError;
        case Checksum => reply := ChecksumChar(c);
        case IgnoreRest =>
        case Name => reply := NameChar(c);
        case Ticked => reply := NameChar(c);
        case DoubleTicked => reply := NameChar(c);
        case Start => state := Error; reply := FormatError;
        case BadChecksum => state := Error; reply := FormatError;
      }
    }

    method ProcessBegun(c: char) returns (reply: Reply)
      requires Valid() && state != Start
      modifies this, numbers, integers, base64Bytes
      ensures (State(), reply) == NextBegun(old(State()), c)
      ensures rasterData == old(rasterData) + if reply == Done then RasterOf(old(State())) else []
      ensures commands == old(commands) + if reply == Done then [old(State())] else []
    {
      hide Interpret, Summed, EndReply;
      if c == '\r' {
        return NextChar;
      }
      if c == '\n' {
        reply := EndOfLine();
        return;
      }
      if c == '*' && state != Error {
        state := Checksum;
        return NextChar;
      }
      AddToChecksum(c);
      reply := InterpretChar(c);
    }

    method AddToChecksum(c: char)
      requires Valid() && state != Start
      modifies this`calcsum
      ensures State() == Summed(old(State()), c)
    {
      if state != Checksum && checksumChars == 0 {
        calcsum := XorByte(calcsum, Code(c));
      }
    }

    method ProcessChar(c: char) returns (reply: Reply)
      requires Valid()
      modifies this, numbers, integers, base64Bytes
      ensures Valid() && (State(), reply) == Next(old(State()), c)
      ensures rasterData == old(rasterData) + if reply == Done then RasterOf(Begun(old(State()))) else []
      ensures commands == old(commands) + if reply == Done then [Begun(old(State()))] else []
    {
      hide NextBegun;
      if state == Start {
        Reinit();
      }
      reply := ProcessBegun(c);
    }
  }

  // memset
  method Clear<T>(a: array<T>, zero: T)
    modifies a
    ensures a[..] == Zeroed(a.Length, zero)
  {
    forall i | 0 <= i < a.Length { a[i] := zero; }
  }
}
