/** auth/envelope_rotation_apply.go: reading and rewriting ARKFILE_MASTER_KEY in secrets.env. */
module SecretsEnv {
  import opened Prelude

  // ================================================================ hexadecimal

  function HexDigit(d: int): char
    requires 0 <= d < 16
  {
    if d < 10 then '0' + d as char else 'a' + (d - 10) as char
  }

  /** Lower and upper case digits, as hex.DecodeString takes them. */
  function HexValue(c: char): Option<int> {
    if '0' <= c <= '9' then Some((c - '0') as int)
    else if 'a' <= c <= 'f' then Some((c - 'a') as int + 10)
    else if 'A' <= c <= 'F' then Some((c - 'A') as int + 10)
    else None
  }

  function EncodeHex(bytes: Bytes): string {
    if bytes == [] then "" else [HexDigit(bytes[0] / 16), HexDigit(bytes[0] % 16)] + EncodeHex(bytes[1..])
  }

  function DecodeHex(s: string): Option<Bytes> {
    if s == "" then Some([])
    else if |s| == 1 then None
    else
      var high, low, rest := HexValue(s[0]), HexValue(s[1]), DecodeHex(s[2..]);
      if high.None? || low.None? || rest.None? || !(0 <= high.value < 16 && 0 <= low.value < 16) then None
      else Some([high.value * 16 + low.value] + rest.value)
  }

  lemma {:induction false} HexRoundTrip(bytes: Bytes)
    ensures DecodeHex(EncodeHex(bytes)) == Some(bytes)
    ensures |EncodeHex(bytes)| == 2 * |bytes|
    ensures forall k | 0 <= k < |EncodeHex(bytes)| :: HexValue(EncodeHex(bytes)[k]).Some?
  {
    if bytes != [] {
      HexRoundTrip(bytes[1..]);
      var s := EncodeHex(bytes);
      assert s[2..] == EncodeHex(bytes[1..]);
      assert HexValue(s[0]) == Some(bytes[0] / 16) && HexValue(s[1]) == Some(bytes[0] % 16);
      assert bytes == [bytes[0]] + bytes[1..];
    }
  }

  function UpperHexDigit(d: int): char
    requires 0 <= d < 16
  {
    if d < 10 then '0' + d as char else 'A' + (d - 10) as char
  }

  function EncodeUpperHex(bytes: Bytes): string {
    if bytes == [] then ""
    else [UpperHexDigit(bytes[0] / 16), UpperHexDigit(bytes[0] % 16)] + EncodeUpperHex(bytes[1..])
  }

  /** Upper-case text decodes to the same bytes. */
  lemma {:induction false} UpperHexRoundTrip(bytes: Bytes)
    ensures DecodeHex(EncodeUpperHex(bytes)) == Some(bytes)
  {
    if bytes != [] {
      UpperHexRoundTrip(bytes[1..]);
      var s := EncodeUpperHex(bytes);
      assert s[2..] == EncodeUpperHex(bytes[1..]);
      UpperDigit(bytes[0] / 16);
      UpperDigit(bytes[0] % 16);
      assert s[0] == UpperHexDigit(bytes[0] / 16) && s[1] == UpperHexDigit(bytes[0] % 16);
      assert bytes == [bytes[0]] + bytes[1..];
    }
  }

  lemma UpperDigit(d: int)
    requires 0 <= d < 16
    ensures HexValue(UpperHexDigit(d)) == Some(d)
  {
  }

  predicate IsHexDigit(c: char) {
    '0' <= c <= '9' || 'a' <= c <= 'f' || 'A' <= c <= 'F'
  }

  /** Text decodes if and only if it has an even number of characters, all of them hexadecimal digits. */
  lemma {:induction false} DecodesIff(s: string)
    ensures DecodeHex(s).Some? <==> |s| % 2 == 0 && forall k | 0 <= k < |s| :: IsHexDigit(s[k])
  {
    if |s| >= 2 {
      DecodesIff(s[2..]);
      assert forall k | 0 <= k < |s[2..]| :: s[2..][k] == s[k + 2];
      assert forall k | 2 <= k < |s| :: s[k] == s[2..][k - 2];
    }
  }

  // ================================================================ lines

  /** Unicode white space, as strings.TrimSpace trims it. */
  predicate IsSpace(c: char) {
    var n := c as int;
    || 9 <= n <= 13 || n == 32 || n == 0x85 || n == 0xA0 || n == 0x1680 || 0x2000 <= n <= 0x200A
    || n == 0x2028 || n == 0x2029 || n == 0x202F || n == 0x205F || n == 0x3000
  }

  function TrimLeft(s: string): string {
    if s != "" && IsSpace(s[0]) then TrimLeft(s[1..]) else s
  }

  function TrimRight(s: string): string {
    if s != "" && IsSpace(s[|s| - 1]) then TrimRight(s[..|s| - 1]) else s
  }

  function TrimSpace(s: string): string {
    TrimRight(TrimLeft(s))
  }

  /** strings.Split(content, "\n"): at least one line, none with a line break. */
  function SplitLines(content: string): (lines: seq<string>)
    ensures |lines| >= 1
  {
    if content == "" then [""]
    else
      var rest := SplitLines(content[1..]);
      if content[0] == '\n' then [""] + rest else [[content[0]] + rest[0]] + rest[1..]
  }

  /** strings.Join(lines, "\n"). */
  function JoinLines(lines: seq<string>): string {
    if lines == [] then "" else if |lines| == 1 then lines[0] else lines[0] + ['\n'] + JoinLines(lines[1..])
  }

  predicate NoBreak(line: string) {
    forall k | 0 <= k < |line| :: line[k] != '\n'
  }

  lemma {:induction false} SplitThenJoin(content: string)
    ensures JoinLines(SplitLines(content)) == content
    ensures forall k | 0 <= k < |SplitLines(content)| :: NoBreak(SplitLines(content)[k])
  {
    if content != "" {
      var rest := SplitLines(content[1..]);
      SplitThenJoin(content[1..]);
      var lines := SplitLines(content);
      assert content == [content[0]] + content[1..];
      if content[0] == '\n' {
        assert lines[1..] == rest;
        assert "" + ['\n'] + JoinLines(rest) == content;
      } else {
        assert lines[1..] == rest[1..];
        if |rest| > 1 {
          assert [content[0]] + rest[0] + ['\n'] + JoinLines(rest[1..])
              == [content[0]] + (rest[0] + ['\n'] + JoinLines(rest[1..]));
        }
      }
    }
  }

  lemma {:induction false} SplitPrefix(line: string, rest: string)
    requires NoBreak(line)
    ensures SplitLines(line) == [line]
    ensures SplitLines(line + ['\n'] + rest) == [line] + SplitLines(rest)
  {
    var whole := line + ['\n'] + rest;
    if line == "" {
      assert whole[1..] == rest;
    } else {
      assert whole[1..] == line[1..] + ['\n'] + rest;
      SplitPrefix(line[1..], rest);
      assert line == [line[0]] + line[1..];
    }
  }

  lemma {:induction false} JoinThenSplit(lines: seq<string>)
    requires |lines| >= 1 && forall k | 0 <= k < |lines| :: NoBreak(lines[k])
    ensures SplitLines(JoinLines(lines)) == lines
  {
    if |lines| == 1 {
      SplitPrefix(lines[0], "");
    } else {
      JoinThenSplit(lines[1..]);
      SplitPrefix(lines[0], JoinLines(lines[1..]));
    }
  }

  // ================================================================ the key line

  const KEY_NAME: string := "ARKFILE_MASTER_KEY"
  const KEY_PREFIX: string := KEY_NAME + "="
  const MAX_LINE: int := 65536

  predicate IsKeyLine(line: string) {
    KEY_PREFIX <= TrimSpace(line)
  }

  function Utf8Length(c: char): int {
    var n := c as int;
    if n < 0x80 then 1 else if n < 0x800 then 2 else if n < 0x1_0000 then 3 else 4
  }

  function ByteLength(s: string): int {
    if s == "" then 0 else Utf8Length(s[0]) + ByteLength(s[1..])
  }

  /** The line scanner's buffer cannot hold such a line; it gives up there. */
  predicate TooLong(line: string) {
    ByteLength(line) >= MAX_LINE
  }

  datatype ReadError = LineTooLong | BadHex | WrongLength(n: nat) | NotFound

  /** What a key line says. */
  function KeyOf(line: string): Result<Bytes, ReadError>
    requires IsKeyLine(line)
  {
    var master := DecodeHex(TrimSpace(TrimSpace(line)[|KEY_PREFIX|..]));
    if master.None? then Err(BadHex)
    else if |master.value| != 32 then Err(WrongLength(|master.value|))
    else Ok(master.value)
  }

  /** The first key line decides, unless the scanner gives up before it. */
  function ReadKey(lines: seq<string>): Result<Bytes, ReadError> {
    if lines == [] then Err(NotFound)
    else if TooLong(lines[0]) then Err(LineTooLong)
    else if IsKeyLine(lines[0]) then KeyOf(lines[0])
    else ReadKey(lines[1..])
  }

  method ReadMasterKeyFromSecretsEnv(content: string) returns (r: Result<Bytes, ReadError>)
    ensures r == ReadKey(SplitLines(content))
  {
    var lines := SplitLines(content);
    for i := 0 to |lines|
      invariant ReadKey(lines) == ReadKey(lines[i..])
    {
      if TooLong(lines[i]) { return Err(LineTooLong); }
      var line := TrimSpace(lines[i]);
      assert lines[i..][1..] == lines[i + 1..];
      if line == "" || line[0] == '#' || !(KEY_PREFIX <= line) { continue; }
      var value := TrimSpace(line[|KEY_PREFIX|..]);
      var master := DecodeHex(value);
      if master.None? { return Err(BadHex); }
      if |master.value| != 32 { return Err(WrongLength(|master.value|)); }
      return Ok(master.value);
    }
    return Err(NotFound);
  }

  /** The index of the first key line, or the number of lines. */
  function FirstKeyLine(lines: seq<string>): (i: nat)
    ensures i <= |lines|
    ensures forall k | 0 <= k < i :: !IsKeyLine(lines[k])
    ensures i < |lines| ==> IsKeyLine(lines[i])
  {
    if lines == [] || IsKeyLine(lines[0]) then 0 else 1 + FirstKeyLine(lines[1..])
  }

  function Rewritten(lines: seq<string>, newHex: string): seq<string> {
    var i := FirstKeyLine(lines);
    if i == |lines| then lines else lines[i := KEY_PREFIX + newHex]
  }

  lemma {:induction false} FirstKeyLineUnique(lines: seq<string>, i: nat)
    requires i < |lines| && IsKeyLine(lines[i]) && forall k | 0 <= k < i :: !IsKeyLine(lines[k])
    ensures FirstKeyLine(lines) == i
  {
  }

  /** Replaces the first key line in place and leaves every other element alone. */
  method ReplaceKeyLine(lines: array<string>, newHex: string) returns (replaced: bool)
    modifies lines
    ensures lines[..] == Rewritten(old(lines[..]), newHex)
    ensures replaced <==> exists k | 0 <= k < lines.Length :: IsKeyLine(old(lines[k]))
  {
    for i := 0 to lines.Length
      invariant lines[..] == old(lines[..])
      invariant forall k | 0 <= k < i :: !IsKeyLine(lines[k])
    {
      if KEY_PREFIX <= TrimSpace(lines[i]) {
        FirstKeyLineUnique(lines[..], i);
        lines[i] := KEY_PREFIX + newHex;
        return true;
      }
    }
    return false;
  }

  /** None when the file has no key line; the file is then left as it was. */
  method RewriteMasterKeyInSecretsEnv(content: string, newHex: string) returns (r: Option<string>)
    ensures r.Some? <==> FirstKeyLine(SplitLines(content)) < |SplitLines(content)|
    ensures r.Some? ==> r.value == JoinLines(Rewritten(SplitLines(content), newHex))
  {
    var parts := SplitLines(content);
    var lines := new string[|parts|](i requires 0 <= i < |parts| => parts[i]);
    assert lines[..] == parts;
    var replaced := ReplaceKeyLine(lines, newHex);
    if !replaced { return None; }
    return Some(JoinLines(lines[..]));
  }

  // ================================================================ rewriting, then reading

  lemma {:induction false} TrimNoSpaceEnds(s: string)
    requires s != "" && !IsSpace(s[0]) && !IsSpace(s[|s| - 1])
    ensures TrimSpace(s) == s
  {
  }

  predicate Blank(s: string) {
    forall k | 0 <= k < |s| :: IsSpace(s[k])
  }

  lemma {:induction false} TrimLeftDrops(left: string, rest: string)
    requires Blank(left) && (rest != "" ==> !IsSpace(rest[0]))
    ensures TrimLeft(left + rest) == rest
  {
    if left == "" {
      assert left + rest == rest;
    } else {
      assert (left + rest)[1..] == left[1..] + rest;
      TrimLeftDrops(left[1..], rest);
    }
  }

  lemma {:induction false} TrimRightDrops(rest: string, right: string)
    requires Blank(right) && (rest != "" ==> !IsSpace(rest[|rest| - 1]))
    ensures TrimRight(rest + right) == rest
  {
    if right == "" {
      assert rest + right == rest;
    } else {
      var all := rest + right;
      assert all[..|all| - 1] == rest + right[..|right| - 1];
      TrimRightDrops(rest, right[..|right| - 1]);
    }
  }

  /** Trimming takes off the white space at both ends and nothing else. */
  lemma TrimPadded(left: string, core: string, right: string)
    requires Blank(left) && Blank(right)
    requires core != "" && !IsSpace(core[0]) && !IsSpace(core[|core| - 1])
    ensures TrimSpace(left + core + right) == core
  {
    assert left + core + right == left + (core + right);
    TrimLeftDrops(left, core + right);
    TrimRightDrops(core, right);
  }

  /**
   A key line may be padded before the name, after the equals sign and at the end; it says what the text in
   between decodes to, and is an error if that is no hexadecimal text or not 32 bytes.
  */
  lemma PaddedKeyLine(left: string, pad: string, text: string, right: string)
    requires Blank(left) && Blank(pad) && Blank(right)
    requires text != "" && !IsSpace(text[0]) && !IsSpace(text[|text| - 1])
    ensures var line := left + (KEY_PREFIX + pad + text) + right;
            && IsKeyLine(line)
            && KeyOf(line) == match DecodeHex(text)
                              case None => Err(BadHex)
                              case Some(master) => if |master| == 32 then Ok(master) else Err(WrongLength(|master|))
  {
    assert KEY_PREFIX[0] == 'A';
    PaddedAssignment(KEY_PREFIX, left, pad, text, right);
  }

  lemma PaddedAssignment(prefix: string, left: string, pad: string, text: string, right: string)
    requires prefix != "" && !IsSpace(prefix[0])
    requires Blank(left) && Blank(pad) && Blank(right)
    requires text != "" && !IsSpace(text[0]) && !IsSpace(text[|text| - 1])
    ensures var core := TrimSpace(left + (prefix + pad + text) + right);
            prefix <= core && TrimSpace(core[|prefix|..]) == text
  {
    var core := prefix + pad + text;
    TrimPadded(left, core, right);
    assert core[|prefix|..] == pad + text + "";
    TrimPadded(pad, text, "");
  }

  /** A comment is no key line and assigns nothing. */
  lemma CommentsIgnored(line: string)
    requires TrimSpace(line) != "" && TrimSpace(line)[0] == '#'
    ensures !IsKeyLine(line) && Assigned(line) == None
  {
  }

  lemma {:induction false} AsciiLength(s: string)
    requires forall k | 0 <= k < |s| :: s[k] as int < 0x80
    ensures ByteLength(s) == |s|
  {
    if s != "" {
      AsciiLength(s[1..]);
    }
  }

  /** Text without white space, as the prefix and hexadecimal digits are. */
  predicate Plain(s: string) {
    forall k | 0 <= k < |s| :: !IsSpace(s[k]) && s[k] as int < 0x80
  }

  lemma HexIsPlain(master: Bytes)
    ensures Plain(EncodeHex(master))
  {
    HexRoundTrip(master);
    var hex := EncodeHex(master);
    forall k | 0 <= k < |hex| ensures !IsSpace(hex[k]) && hex[k] as int < 0x80 {
      assert HexValue(hex[k]).Some?;
    }
  }

  /** The line that a rewrite installs is short, is a key line, and says the new master. */
  lemma InstalledLine(master: Bytes)
    requires |master| == 32
    ensures var line := KEY_PREFIX + EncodeHex(master);
            && !TooLong(line) && NoBreak(line) && IsKeyLine(line) && KeyOf(line) == Ok(master)
  {
    var hex := EncodeHex(master);
    HexRoundTrip(master);
    HexIsPlain(master);
    assert Plain(KEY_PREFIX);
    var line := KEY_PREFIX + hex;
    assert Plain(line);
    TrimNoSpaceEnds(hex);
    TrimNoSpaceEnds(line);
    assert line[|KEY_PREFIX|..] == hex;
    AsciiLength(line);
  }

  lemma {:induction false} ReadFirstKeyLine(lines: seq<string>, i: nat)
    requires i < |lines| && IsKeyLine(lines[i]) && forall k | 0 <= k < i :: !IsKeyLine(lines[k])
    ensures ReadKey(lines) == if exists k | 0 <= k <= i :: TooLong(lines[k]) then Err(LineTooLong) else KeyOf(lines[i])
  {
    if i > 0 && !TooLong(lines[0]) {
      var rest := lines[1..];
      ReadFirstKeyLine(rest, i - 1);
      assert forall k | 0 <= k < |rest| :: rest[k] == lines[k + 1];
      if exists k | 0 <= k <= i :: TooLong(lines[k]) {
        var k :| 0 <= k <= i && TooLong(lines[k]);
        assert TooLong(rest[k - 1]);
      }
    }
  }

  /**
   Rewriting a file that has a key line changes that line only, in place; reading the result back gives the
   new master if and only if no earlier line overflows the scanner's buffer.
  */
  lemma RewriteThenRead(content: string, master: Bytes)
    requires |master| == 32 && FirstKeyLine(SplitLines(content)) < |SplitLines(content)|
    ensures var lines := SplitLines(content);
            var i := FirstKeyLine(lines);
            var after := SplitLines(JoinLines(Rewritten(lines, EncodeHex(master))));
            && |after| == |lines| && (forall k | 0 <= k < |lines| && k != i :: after[k] == lines[k])
            && (ReadKey(after) == Ok(master) <==> forall k | 0 <= k < i :: !TooLong(lines[k]))
  {
    var lines := SplitLines(content);
    var i := FirstKeyLine(lines);
    var after := Rewritten(lines, EncodeHex(master));
    SplitThenJoin(content);
    InstalledLine(master);
    JoinThenSplit(after);
    ReadFirstKeyLine(after, i);
  }

  /** In particular, a file whose old master could be read gives the new one after the rewrite. */
  lemma ReadableStaysReadable(content: string, master: Bytes)
    requires |master| == 32 && ReadKey(SplitLines(content)).Ok?
    ensures FirstKeyLine(SplitLines(content)) < |SplitLines(content)|
    ensures ReadKey(SplitLines(JoinLines(Rewritten(SplitLines(content), EncodeHex(master))))) == Ok(master)
  {
    var lines := SplitLines(content);
    var i := FirstKeyLine(lines);
    if i == |lines| {
      NothingToRead(lines);
    } else {
      ReadFirstKeyLine(lines, i);
      RewriteThenRead(content, master);
    }
  }

  lemma {:induction false} NothingToRead(lines: seq<string>)
    requires forall k | 0 <= k < |lines| :: !IsKeyLine(lines[k])
    ensures ReadKey(lines) == Err(if exists k | 0 <= k < |lines| :: TooLong(lines[k]) then LineTooLong else NotFound)
  {
    if lines != [] {
      NothingToRead(lines[1..]);
      assert forall k | 1 <= k < |lines| :: lines[k] == lines[1..][k - 1];
      assert forall k | 0 <= k < |lines[1..]| :: lines[1..][k] == lines[k + 1];
    }
  }

  // ================================================================ the master that a process starts with

  /** The index of the first equals sign, or the length. */
  function FirstEquals(s: string): (i: nat)
    ensures i <= |s| && (i < |s| ==> s[i] == '=')
    ensures forall k | 0 <= k < i :: s[k] != '='
  {
    if s == "" || s[0] == '=' then 0 else 1 + FirstEquals(s[1..])
  }

  /** The value that a line of the file gives the variable; the system refuses values that hold a NUL. */
  function Assigned(line: string): Option<string> {
    var t := TrimSpace(line);
    var i := FirstEquals(t);
    if t == "" || t[0] == '#' || i == |t| || TrimSpace(t[..i]) != KEY_NAME || '\0' in TrimSpace(t[i + 1..]) then None
    else Some(TrimSpace(t[i + 1..]))
  }

  /** The variable after the file has been loaded line by line into an environment; the last line wins. */
  function LoadLines(lines: seq<string>, env: Option<string>): Result<Option<string>, ReadError> {
    if lines == [] then Ok(env)
    else if TooLong(lines[0]) then Err(LineTooLong)
    else LoadLines(lines[1..], if Assigned(lines[0]).Some? then Assigned(lines[0]) else env)
  }

  /** What the key manager makes of the variable. */
  function InitMaster(env: Option<string>): Result<Bytes, ReadError> {
    if env.None? || env.value == "" then Err(NotFound)
    else
      var master := DecodeHex(env.value);
      if master.None? then Err(BadHex)
      else if |master.value| != 32 then Err(WrongLength(|master.value|))
      else Ok(master.value)
  }

  method LoadSecretsEnvFile(content: string, inherited: Option<string>) returns (r: Result<Option<string>, ReadError>)
    ensures r == LoadLines(SplitLines(content), inherited)
  {
    var lines := SplitLines(content);
    var env := inherited;
    for i := 0 to |lines|
      invariant LoadLines(lines, inherited) == LoadLines(lines[i..], env)
    {
      if TooLong(lines[i]) { return Err(LineTooLong); }
      var line := TrimSpace(lines[i]);
      assert lines[i..][1..] == lines[i + 1..];
      if line == "" || line[0] == '#' { continue; }
      var equals := FirstEquals(line);
      if equals == |line| { continue; }
      var key := TrimSpace(line[..equals]);
      var value := TrimSpace(line[equals + 1..]);
      if key == KEY_NAME && '\0' !in value {
        env := Some(value);
      }
    }
    return Ok(env);
  }

  /** The master that a process starts with if the file is all its environment. */
  function StartMaster(lines: seq<string>): Result<Bytes, ReadError> {
    var env := LoadLines(lines, None);
    if env.Err? then Err(env.error) else InitMaster(env.value)
  }

  /** The last line that assigns the variable decides what is loaded. */
  lemma {:induction false} LastAssignmentWins(lines: seq<string>, env: Option<string>, i: nat)
    requires i < |lines| && Assigned(lines[i]).Some?
    requires forall k | i < k < |lines| :: Assigned(lines[k]).None?
    requires forall k | 0 <= k < |lines| :: !TooLong(lines[k])
    ensures LoadLines(lines, env) == Ok(Assigned(lines[i]))
  {
    var next := if Assigned(lines[0]).Some? then Assigned(lines[0]) else env;
    assert forall k | 0 <= k < |lines[1..]| :: lines[1..][k] == lines[k + 1];
    if i > 0 {
      LastAssignmentWins(lines[1..], next, i - 1);
    } else {
      NoAssignmentKeeps(lines[1..], next);
    }
  }

  lemma {:induction false} NoAssignmentKeeps(lines: seq<string>, env: Option<string>)
    requires forall k | 0 <= k < |lines| :: Assigned(lines[k]).None? && !TooLong(lines[k])
    ensures LoadLines(lines, env) == Ok(env)
  {
    if lines != [] {
      assert forall k | 0 <= k < |lines[1..]| :: lines[1..][k] == lines[k + 1];
      NoAssignmentKeeps(lines[1..], env);
    }
  }

  /** Where the file has a key line, what the environment held before makes no difference. */
  lemma InheritedIrrelevant(lines: seq<string>, inherited: Option<string>)
    requires ReadKey(lines).Ok? && LoadLines(lines, None).Ok?
    ensures LoadLines(lines, inherited) == LoadLines(lines, None)
  {
    var i := FirstKeyLine(lines);
    if i == |lines| {
      NothingToRead(lines);
    } else {
      ReadFirstKeyLine(lines, i);
      KeyLineAssigns(lines[i]);
      LoadedAreShort(lines, None);
      var last := LastAssignment(lines, i);
      LastAssignmentWins(lines, None, last);
      LastAssignmentWins(lines, inherited, last);
    }
  }

  lemma {:induction false} HexHasNoNul(s: string)
    requires DecodeHex(s).Some?
    ensures '\0' !in s
  {
    if |s| >= 2 {
      HexHasNoNul(s[2..]);
      assert s == [s[0], s[1]] + s[2..];
    }
  }

  /** A key line whose master can be read assigns just that master. */
  lemma KeyLineAssigns(line: string)
    requires IsKeyLine(line) && KeyOf(line).Ok?
    ensures Assigned(line).Some? && InitMaster(Assigned(line)) == KeyOf(line)
  {
    var t := TrimSpace(line);
    var n := |KEY_NAME|;
    assert t[..n] == KEY_NAME && t[n] == '=' by {
      assert t[..n + 1] == KEY_PREFIX;
      assert t[..n] == t[..n + 1][..n];
    }
    FirstEqualsIs(t, n);
    TrimNoSpaceEnds(KEY_NAME);
    HexHasNoNul(TrimSpace(t[n + 1..]));
  }

  lemma FirstEqualsIs(s: string, n: nat)
    requires n < |s| && s[n] == '=' && forall k | 0 <= k < n :: s[k] != '='
    ensures FirstEquals(s) == n
  {
  }

  /** A line that names the variable, padded anywhere around name, equals sign and value, assigns the value. */
  lemma PaddedNameAssigns(left: string, gap: string, pad: string, text: string, right: string)
    requires Blank(left) && Blank(gap) && Blank(pad) && Blank(right)
    requires text != "" && !IsSpace(text[0]) && !IsSpace(text[|text| - 1]) && '\0' !in text
    ensures Assigned(left + (KEY_NAME + gap + "=" + pad + text) + right) == Some(text)
  {
    var name := KEY_NAME + gap;
    var core := name + "=" + pad + text;
    assert KEY_NAME[0] == 'A' && core[0] == 'A';
    TrimPadded(left, core, right);
    NameHasNoEquals(gap);
    FirstEqualsIs(core, |name|);
    assert core[..|name|] == "" + KEY_NAME + gap;
    TrimPadded("", KEY_NAME, gap);
    assert core[|name| + 1..] == pad + text + "";
    TrimPadded(pad, text, "");
  }

  lemma NameHasNoEquals(gap: string)
    requires Blank(gap)
    ensures forall k | 0 <= k < |KEY_NAME + gap| :: (KEY_NAME + gap)[k] != '='
  {
    assert forall k | 0 <= k < |KEY_NAME| :: KEY_NAME[k] != '=';
    assert !IsSpace('=');
  }

  /** A file with one line for the variable. */
  ghost predicate OneAssignment(lines: seq<string>) {
    forall i, j | 0 <= i < |lines| && 0 <= j < |lines| ::
      Assigned(lines[i]).Some? && Assigned(lines[j]).Some? ==> i == j
  }

  /** On such a file the rotation and the process that it belongs to hold the same master. */
  lemma SameMaster(lines: seq<string>)
    requires ReadKey(lines).Ok? && StartMaster(lines).Ok? && OneAssignment(lines)
    ensures StartMaster(lines) == ReadKey(lines)
  {
    var i := FirstKeyLine(lines);
    if i == |lines| {
      NothingToRead(lines);
    } else {
      ReadFirstKeyLine(lines, i);
      KeyLineAssigns(lines[i]);
      LoadedAreShort(lines, None);
      LastAssignmentWins(lines, None, i);
    }
  }

  lemma {:induction false} LoadedAreShort(lines: seq<string>, env: Option<string>)
    requires LoadLines(lines, env).Ok?
    ensures forall k | 0 <= k < |lines| :: !TooLong(lines[k])
  {
    if lines != [] {
      LoadedAreShort(lines[1..], if Assigned(lines[0]).Some? then Assigned(lines[0]) else env);
      assert forall k | 1 <= k < |lines| :: lines[k] == lines[1..][k - 1];
    }
  }

  /** A line of the file gives the variable this master. */
  predicate Says(line: string, master: Bytes) {
    Assigned(line).Some? && InitMaster(Assigned(line)) == Ok(master)
  }

  /**
   After a rewrite the service starts with the new master if and only if no line after the rewritten one
   assigns the variable again; the new master, drawn at random, is in no line of the old file.
  */
  lemma StartsWithNewIff(lines: seq<string>, master: Bytes)
    requires |master| == 32 && ReadKey(lines).Ok? && StartMaster(lines).Ok?
    requires forall k | 0 <= k < |lines| :: !Says(lines[k], master)
    ensures StartMaster(Rewritten(lines, EncodeHex(master))) == Ok(master)
       <==> forall k | FirstKeyLine(lines) < k < |lines| :: Assigned(lines[k]).None?
  {
    var i := FirstKeyLine(lines);
    if i == |lines| {
      NothingToRead(lines);
      return;
    }
    var after := Rewritten(lines, EncodeHex(master));
    InstalledLine(master);
    KeyLineAssigns(after[i]);
    LoadedAreShort(lines, None);
    assert forall k | 0 <= k < |after| && k != i :: after[k] == lines[k];
    StartsWithLineIff(after, i, master);
  }

  /**
   A line's master is the one a process starts with exactly if no later line assigns the variable, unless
   to the same.
  */
  lemma StartsWithLineIff(lines: seq<string>, i: nat, master: Bytes)
    requires i < |lines| && Says(lines[i], master) && forall k | 0 <= k < |lines| :: !TooLong(lines[k])
    requires forall k | i < k < |lines| :: !Says(lines[k], master)
    ensures StartMaster(lines) == Ok(master) <==> forall k | i < k < |lines| :: Assigned(lines[k]).None?
  {
    var last := LastAssignment(lines, i);
    LastAssignmentWins(lines, None, last);
    assert StartMaster(lines) == InitMaster(Assigned(lines[last]));
  }

  lemma LastAssignment(lines: seq<string>, i: nat) returns (last: nat)
    requires i < |lines| && Assigned(lines[i]).Some?
    ensures i <= last < |lines| && Assigned(lines[last]).Some?
    ensures forall k | last < k < |lines| :: Assigned(lines[k]).None?
  {
    last := |lines| - 1;
    while Assigned(lines[last]).None?
      invariant i <= last < |lines|
      invariant forall k | last < k < |lines| :: Assigned(lines[k]).None?
      decreases last
    {
      last := last - 1;
    }
  }
}
