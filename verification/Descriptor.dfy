/** Parsing the text descriptor of a VMDK. */
module Descriptor {
  import opened Bytes
  import opened Results
  import opened Text

  datatype ExtentType = Flat | Sparse | Zero | Vmfs | VmfsSparse | VmfsRdm | VmfsRaw

  datatype Extent = Extent(access: string, sizeSectors: u64, extentType: ExtentType, filename: string, offset: u64)

  datatype ParseError =
    | TooFewParts | BadSize | UnknownType | ExpectedQuote | UnclosedQuote | BadOffset
    | BadSetting(key: string)

  datatype VmdkDescriptor = VmdkDescriptor(
    version: u32,
    cid: u32,
    parentCid: u32,
    createType: string,
    extents: seq<Extent>,
    cylinders: u64,
    heads: u32,
    sectors: u32,
    hwVersion: string,
    adapterType: string)

  /** What a text without any line parses to. */
  const BLANK := VmdkDescriptor(1, 0, 0xffff_ffff, "", [], 0, 0, 0, "", "")

  // ---- White space

  predicate IsWs(c: char) {
    IsWhite(c as int)
  }

  function TrimWs(s: string): string {
    Trim(s, IsWs)
  }

  /** Length of the leading part without white space. */
  function WordLength(s: string): (k: nat)
    ensures k <= |s|
    ensures forall i | 0 <= i < k :: !IsWs(s[i])
    ensures k < |s| ==> IsWs(s[k])
  {
    if s == "" || IsWs(s[0]) then 0 else 1 + WordLength(s[1..])
  }

  /** `split_whitespace`. */
  function Tokens(s: string): seq<string>
    decreases |s|
  {
    if s == "" then []
    else if IsWs(s[0]) then Tokens(s[1..])
    else
      var k := WordLength(s);
      [s[..k]] + Tokens(s[k..])
  }

  function JoinWords(ws: seq<string>): string {
    if ws == [] then "" else if |ws| == 1 then ws[0] else ws[0] + " " + JoinWords(ws[1..])
  }

  // ---- Parsing one line

  function TypeName(t: ExtentType): string {
    match t
    case Flat => "FLAT"
    case Sparse => "SPARSE"
    case Zero => "ZERO"
    case Vmfs => "VMFS"
    case VmfsSparse => "VMFSSPARSE"
    case VmfsRdm => "VMFSRDM"
    case VmfsRaw => "VMFSRAW"
  }

  /** Upper case of one character, as far as it can end up in ASCII: all other characters stay outside. */
  function UpperCase(c: char): string {
    if c == '\U{00DF}' then "SS"
    else if c == '\U{0131}' then "I"
    else if c == '\U{017F}' then "S"
    else if c == '\U{FB00}' then "FF"
    else if c == '\U{FB01}' then "FI"
    else if c == '\U{FB02}' then "FL"
    else if c == '\U{FB03}' then "FFI"
    else if c == '\U{FB04}' then "FFL"
    else if c == '\U{FB05}' || c == '\U{FB06}' then "ST"
    else [AsciiUpper(c)]
  }

  function Upper(s: string): string {
    if s == "" then "" else UpperCase(s[0]) + Upper(s[1..])
  }

  function ParseType(s: string): Option<ExtentType> {
    var u := Upper(s);
    if u == "FLAT" then Some(Flat)
    else if u == "SPARSE" then Some(Sparse)
    else if u == "ZERO" then Some(Zero)
    else if u == "VMFS" then Some(Vmfs)
    else if u == "VMFSSPARSE" then Some(VmfsSparse)
    else if u == "VMFSRDM" then Some(VmfsRdm)
    else if u == "VMFSRAW" then Some(VmfsRaw)
    else None
  }

  /** The quoted name and what follows it, if anything does. */
  function ParseQuoted(text: string): Result<(string, Option<string>), ParseError> {
    var s := TrimWs(text);
    if s == "" || s[0] != '"' then Err(ExpectedQuote)
    else
      var k := FirstAt(s[1..], '"');
      if k == |s| - 1 then Err(UnclosedQuote)
      else
        var offset := TrimWs(s[k + 2..]);
        Ok((s[1..k + 1], if offset == "" then None else Some(offset)))
  }

  function ParseU64(s: string): Option<u64> {
    match ParseUnsigned(s, U64_LIMIT)
    case None => None
    case Some(v) => Some(v)
  }

  function ParseExtentLine(line: string): Result<Extent, ParseError> {
    var parts := Tokens(line);
    if |parts| < 4 then Err(TooFewParts)
    else
      match ParseU64(parts[1])
      case None => Err(BadSize)
      case Some(size) =>
        match ParseType(parts[2])
        case None => Err(UnknownType)
        case Some(t) =>
          match ParseQuoted(JoinWords(parts[3..]))
          case Err(e) => Err(e)
          case Ok((name, None)) => Ok(Extent(parts[0], size, t, name, 0))
          case Ok((name, Some(text))) =>
            match ParseU64(text)
            case None => Err(BadOffset)
            case Some(offset) => Ok(Extent(parts[0], size, t, name, offset))
  }

  // ---- Settings

  function HexValue(s: string): Option<nat> {
    if s == "" then Some(0)
    else
      match HexValue(s[..|s| - 1])
      case None => None
      case Some(v) =>
        match HexDigit(s[|s| - 1])
        case None => None
        case Some(d) => Some(16 * v + d)
  }

  /** `from_str_radix` with radix 16 of a 32-bit number. */
  function ParseHex(s: string): Option<u32> {
    var digits := if |s| > 1 && s[0] == '+' then s[1..] else s;
    if digits == "" then None
    else
      match HexValue(digits)
      case None => None
      case Some(v) => if v < U32_LIMIT then Some(v) else None
  }

  function Unquote(value: string): string {
    if |value| >= 2 && value[0] == '"' && value[|value| - 1] == '"' then value[1..|value| - 1] else value
  }

  function KeyValue(line: string): Option<(string, string)> {
    var k := FirstAt(line, '=');
    if k == |line| then None else Some((TrimWs(line[..k]), Unquote(TrimWs(line[k + 1..]))))
  }

  function ParseU32(s: string): Option<u32> {
    match ParseUnsigned(s, U32_LIMIT)
    case None => None
    case Some(v) => Some(v)
  }

  function SetKey(d: VmdkDescriptor, key: string, value: string): Result<VmdkDescriptor, ParseError> {
    if key == "version" then
      match ParseU32(value) { case None => Err(BadSetting(key)) case Some(v) => Ok(d.(version := v)) }
    else if key == "CID" then
      match ParseHex(value) { case None => Err(BadSetting(key)) case Some(v) => Ok(d.(cid := v)) }
    else if key == "parentCID" then
      match ParseHex(value) { case None => Err(BadSetting(key)) case Some(v) => Ok(d.(parentCid := v)) }
    else if key == "createType" then Ok(d.(createType := value))
    else if key == "ddb.virtualHWVersion" then Ok(d.(hwVersion := value))
    else if key == "ddb.geometry.cylinders" then
      match ParseU64(value) { case None => Err(BadSetting(key)) case Some(v) => Ok(d.(cylinders := v)) }
    else if key == "ddb.geometry.heads" then
      match ParseU32(value) { case None => Err(BadSetting(key)) case Some(v) => Ok(d.(heads := v)) }
    else if key == "ddb.geometry.sectors" then
      match ParseU32(value) { case None => Err(BadSetting(key)) case Some(v) => Ok(d.(sectors := v)) }
    else if key == "ddb.adapterType" then Ok(d.(adapterType := value))
    else Ok(d)
  }

  // ---- Whole texts

  predicate IsExtentLine(line: string) {
    "RW " <= line || "RDONLY " <= line || "NOACCESS " <= line
  }

  /** What one line, already trimmed, does to the descriptor built so far. */
  function Apply(d: VmdkDescriptor, line: string): Result<VmdkDescriptor, ParseError> {
    if line == "" || line[0] == '#' then Ok(d)
    else if IsExtentLine(line) then
      match ParseExtentLine(line)
      case Err(e) => Err(e)
      case Ok(extent) => Ok(d.(extents := d.extents + [extent]))
    else
      match KeyValue(line)
      case None => Ok(d)
      case Some((key, value)) => SetKey(d, key, value)
  }

  function ParseFrom(d: VmdkDescriptor, lines: seq<string>): Result<VmdkDescriptor, ParseError>
    decreases |lines|
  {
    if lines == [] then Ok(d)
    else
      match Apply(d, TrimWs(lines[0]))
      case Err(e) => Err(e)
      case Ok(next) => ParseFrom(next, lines[1..])
  }

  /** A carriage return before a line end is white space, so trimming also removes what `lines` would. */
  function ParsedDescriptor(content: string): Result<VmdkDescriptor, ParseError> {
    ParseFrom(BLANK, Lines(content, '\n'))
  }

  method ParseDescriptor(content: string) returns (r: Result<VmdkDescriptor, ParseError>)
    ensures r == ParsedDescriptor(content)
  {
    var d, lines := BLANK, Lines(content, '\n');
    for i := 0 to |lines|
      invariant ParseFrom(BLANK, lines) == ParseFrom(d, lines[i..])
    {
      assert lines[i..][1..] == lines[i + 1..];
      var step := Apply(d, TrimWs(lines[i]));
      if step.Err? {
        return Err(step.error);
      }
      d := step.value;
    }
    r := Ok(d);
  }

  // ---- Size

  function SectorsIn(extents: seq<Extent>): nat {
    if extents == [] then 0 else extents[0].sizeSectors + SectorsIn(extents[1..])
  }

  /** `disk_size_sectors` and `disk_size_bytes`, in 64-bit arithmetic. */
  function DiskSizeSectors(d: VmdkDescriptor): u64 {
    SectorsIn(d.extents) % U64_LIMIT
  }

  function DiskSizeBytes(d: VmdkDescriptor): u64 {
    DiskSizeSectors(d) * 512 % U64_LIMIT
  }

  /** The size in bytes is right exactly when it fits 64 bits. */
  lemma SizeExactIff(d: VmdkDescriptor)
    ensures DiskSizeSectors(d) == SectorsIn(d.extents)
       <==> SectorsIn(d.extents) < U64_LIMIT
    ensures DiskSizeBytes(d) == 512 * SectorsIn(d.extents)
       <==> 512 * SectorsIn(d.extents) < U64_LIMIT
  {
  }

  /** The sum of all extents, however they are split in two. */
  lemma {:induction false} SectorsAdd(a: seq<Extent>, b: seq<Extent>)
    ensures SectorsIn(a + b) == SectorsIn(a) + SectorsIn(b)
  {
    if a == [] {
      assert a + b == b;
    } else {
      SectorsAdd(a[1..], b);
      assert (a + b)[1..] == a[1..] + b;
    }
  }
}
