/**
  File names for downloaded images.

  Digests are parameters (32 bytes each). Names are ASCII whenever they are cut, so byte offsets and
  character offsets agree. The subtraction in the truncation wraps at 64 bits, as in a release build.
*/
module Naming {
  import opened Types
  import opened Batch

  const MAX_NAME := 200

  /** No Rust string is longer than `isize::MAX` bytes. */
  const MAX_STRING := 0x7FFF_FFFF_FFFF_FFFF

  type Byte = b: nat | b < 256

  datatype Strategy = UrlBased | Sequential | ContentHash | FileHeader

  // ---------------------------------------------------------------- strings

  /** Index of the last `c`. */
  function LastIndex(s: string, c: char): (r: Option<nat>)
    ensures r.Some? ==> r.value < |s| && s[r.value] == c && forall j :: r.value < j < |s| ==> s[j] != c
    ensures r.None? ==> c !in s
  {
    if s == [] then None
    else if s[|s| - 1] == c then Some(|s| - 1)
    else
      assert s == s[..|s| - 1] + [s[|s| - 1]];
      LastIndex(s[..|s| - 1], c)
  }

  function AfterLast(s: string, c: char): string {
    match LastIndex(s, c)
    case Some(i) => s[i + 1..]
    case None => s
  }

  /** What comes before the first `c`. */
  function Before(s: string, c: char): (r: string)
    ensures c !in r && |r| <= |s| && r == s[..|r|] && (|r| < |s| ==> s[|r|] == c)
  {
    if s == [] || s[0] == c then [] else [s[0]] + Before(s[1..], c)
  }

  predicate IsDigit(c: char) { '0' <= c <= '9' }

  predicate IsAlnum(c: char) { IsDigit(c) || 'a' <= c <= 'z' || 'A' <= c <= 'Z' }

  predicate IsSafe(c: char) { IsAlnum(c) || c == '.' || c == '-' || c == '_' }

  predicate AllSafe(s: string) { forall c :: c in s ==> IsSafe(c) }

  predicate AllAlnum(s: string) { forall c :: c in s ==> IsAlnum(c) }

  predicate IsExtension(ext: string) { 1 <= |ext| <= 10 && AllAlnum(ext) }

  function Lower(s: string): (r: string)
    ensures |r| == |s| && (AllAlnum(s) ==> AllAlnum(r))
    ensures forall i :: 0 <= i < |s| ==> r[i] as int == if 'A' <= s[i] <= 'Z' then s[i] as int + 32 else s[i] as int
  {
    seq(|s|, i requires 0 <= i < |s| => LowerAscii(s[i]))
  }

  /** ASCII letters and digits, dots, hyphens and underscores. */
  ghost predicate PlainChar(c: char) {
    '0' <= c <= '9' || 'a' <= c <= 'z' || 'A' <= c <= 'Z' || c == '.' || c == '-' || c == '_'
  }

  function Sanitize(s: string): (r: string)
    ensures |r| == |s| && AllSafe(r)
    ensures forall i :: 0 <= i < |s| ==> r[i] == if PlainChar(s[i]) then s[i] else '_'
    ensures AllSafe(s) ==> r == s
  {
    var r := seq(|s|, i requires 0 <= i < |s| => if IsAlnum(s[i]) || s[i] == '.' || s[i] == '-' then s[i] else '_');
    assert AllSafe(s) ==> forall i :: 0 <= i < |s| ==> IsSafe(s[i]) && r[i] == s[i];
    r
  }

  function HexDigit(n: nat): (c: char)
    requires n < 16
    ensures IsAlnum(c)
  {
    if n < 10 then '0' + n as char else 'a' + (n - 10) as char
  }

  function Hex(bytes: seq<Byte>): (r: string)
    ensures |r| == 2 * |bytes| && AllAlnum(r)
  {
    if bytes == [] then [] else [HexDigit(bytes[0] / 16), HexDigit(bytes[0] % 16)] + Hex(bytes[1..])
  }

  function Decimal(n: nat): (r: string)
    ensures r != [] && forall c :: c in r ==> IsDigit(c)
  {
    (if n < 10 then [] else Decimal(n / 10)) + ['0' + (n % 10) as char]
  }

  /** Decimal digits, padded with zeros to a width of three. */
  function Pad3(n: nat): (r: string)
    ensures |r| >= 3 && forall c :: c in r ==> IsDigit(c)
    ensures |r| > 3 ==> r == Decimal(n)
  {
    var d := Decimal(n);
    (if |d| == 1 then "00" else if |d| == 2 then "0" else "") + d
  }

  // ---------------------------------------------------------------- the naming functions

  function StripUrl(url: string): string {
    Before(Before(url, '?'), '#')
  }

  function LastSegment(url: string): string {
    AfterLast(StripUrl(url), '/')
  }

  function Detect(bytes: seq<Byte>): (ext: string)
    ensures 3 <= |ext| <= 4 && AllAlnum(ext)
  {
    if |bytes| >= 3 && bytes[..3] == [0xFF, 0xD8, 0xFF] then "jpg"
    else if |bytes| >= 4 && bytes[..4] == [0x89, 0x50, 0x4E, 0x47] then "png"
    else if |bytes| >= 4 && bytes[..4] == [0x47, 0x49, 0x46, 0x38] then "gif"
    else if |bytes| >= 12 && bytes[..4] == [0x52, 0x49, 0x46, 0x46] && bytes[8..12] == [0x57, 0x45, 0x42, 0x50] then "webp"
    else if |bytes| >= 8 && bytes[4..8] == [0x66, 0x74, 0x79, 0x70] then "avif"
    else "bin"
  }

  function ExtensionFromUrl(url: string): (r: Option<string>)
    ensures r.Some? ==> IsExtension(r.value)
  {
    SegmentExtension(LastSegment(url))
  }

  function SegmentExtension(segment: string): (r: Option<string>)
    ensures r.Some? ==> IsExtension(r.value)
  {
    match LastIndex(segment, '.')
    case None => None
    case Some(dot) =>
      var ext := segment[dot + 1..];
      if IsExtension(ext) then Some(Lower(ext)) else None
  }

  function Extension(url: string, bytes: seq<Byte>): (ext: string)
    ensures IsExtension(ext)
  {
    match ExtensionFromUrl(url)
    case Some(ext) => ext
    case None => Detect(bytes)
  }

  function SequentialName(index: nat, url: string, bytes: seq<Byte>): string {
    Pad3(index) + "." + Extension(url, bytes)
  }

  function ContentHashName(url: string, bytes: seq<Byte>, bodyDigest: seq<Byte>): string
    requires |bodyDigest| == 32
  {
    Hex(bodyDigest[..16]) + "." + Extension(url, bytes)
  }

  function UrlBasedName(url: string, urlDigest: seq<Byte>): string
    requires |urlDigest| == 32
  {
    var segment := LastSegment(url);
    if segment == [] || '.' !in segment then Hex(urlDigest[..16]) + ".bin" else Sanitize(segment)
  }

  function FileHeaderName(url: string, bytes: seq<Byte>, urlDigest: seq<Byte>): string
    requires |urlDigest| == 32
  {
    var segment := LastSegment(url);
    if segment == [] || '.' !in segment then Hex(urlDigest[..8]) + "." + Detect(bytes)
    else
      var safe := Sanitize(segment);
      match LastIndex(safe, '.')
      case Some(dot) => safe[..dot] + "." + Detect(bytes)
      case None => safe + "." + Detect(bytes)
  }

  function Truncate(name: string): string {
    if |name| <= MAX_NAME then name
    else match LastIndex(name, '.')
      case Some(dot) =>
        var maxStem := (MAX_NAME - (|name| - dot)) % U64;
        if maxStem > 0 then
          var stemEnd := if maxStem < |name| then maxStem else dot;
          name[..if stemEnd <= dot then stemEnd else dot] + name[dot..]
        else name[..MAX_NAME]
      case None => name[..MAX_NAME]
  }

  function RawName(url: string, index: nat, bytes: seq<Byte>, strategy: Strategy, urlDigest: seq<Byte>, bodyDigest: seq<Byte>): string
    requires |urlDigest| == 32 && |bodyDigest| == 32
  {
    match strategy
    case UrlBased => UrlBasedName(url, urlDigest)
    case Sequential => SequentialName(index, url, bytes)
    case ContentHash => ContentHashName(url, bytes, bodyDigest)
    case FileHeader => FileHeaderName(url, bytes, urlDigest)
  }

  function GenerateFilename(url: string, index: nat, bytes: seq<Byte>, strategy: Strategy, urlDigest: seq<Byte>, bodyDigest: seq<Byte>): string
    requires |urlDigest| == 32 && |bodyDigest| == 32
  {
    Truncate(RawName(url, index, bytes, strategy, urlDigest, bodyDigest))
  }

  // ---------------------------------------------------------------- what is read off a URL or a body

  lemma LastIndexIs(s: string, c: char, i: nat)
    requires i < |s| && s[i] == c && forall j :: i < j < |s| ==> s[j] != c
    ensures LastIndex(s, c) == Some(i)
  {
    hide LastIndex;
    assert s[i] in s;
  }

  lemma {:induction false} BeforeKeeps(head: string, rest: string, c: char)
    requires c !in head
    ensures Before(head + rest, c) == head + Before(rest, c)
  {
    if head == [] {
      assert head + rest == rest;
    } else {
      assert (head + rest)[1..] == head[1..] + rest;
      BeforeKeeps(head[1..], rest, c);
    }
  }

  /** Neither a query nor a fragment begins in `s`. */
  predicate IsPath(s: string) { '?' !in s && '#' !in s }

  predicate IsTail(rest: string) { rest == [] || rest[0] == '?' || rest[0] == '#' }

  lemma StripsTail(path: string, rest: string)
    requires IsPath(path) && IsTail(rest)
    ensures StripUrl(path + rest) == path
  {
    BeforeKeeps(path, rest, '?');
    BeforeKeeps(path, Before(rest, '?'), '#');
    assert path + [] == path;
  }

  lemma LastPiece(prefix: string, c: char, piece: string)
    requires c !in piece
    ensures LastIndex(prefix + [c] + piece, c) == Some(|prefix|) && (prefix + [c] + piece)[|prefix| + 1..] == piece
  {
    hide LastIndex;
    var s := prefix + [c] + piece;
    forall j | |prefix| < j < |s|
      ensures s[j] != c
    {
      assert s[j] in piece;
    }
    LastIndexIs(s, c, |prefix|);
  }

  /**
    The last segment of a URL is what follows the path's last slash, or all of it without one; query and
    fragment do not matter.
  */
  lemma SegmentOf(prefix: string, segment: string, rest: string)
    requires IsPath(prefix) && IsPath(segment) && '/' !in segment && IsTail(rest)
    ensures LastSegment(prefix + "/" + segment + rest) == segment
    ensures LastSegment(segment + rest) == segment
  {
    StripsTail(segment, rest);
    StripsTail(prefix + "/" + segment, rest);
    LastPiece(prefix, '/', segment);
  }

  lemma ExtensionMeans(ext: string)
    ensures IsExtension(ext) <==>
              1 <= |ext| <= 10 && forall c :: c in ext ==> '0' <= c <= '9' || 'a' <= c <= 'z' || 'A' <= c <= 'Z'
  {
    hide IsDigit;
    assert forall c :: IsDigit(c) <==> '0' <= c <= '9' by { DigitMeans(); }
  }

  lemma DigitMeans()
    ensures forall c :: IsDigit(c) <==> '0' <= c <= '9'
  {
  }

  /**
    The extension of a URL is what follows the last dot of its last segment, in lower case, if that is
    1 to 10 letters and digits; otherwise, or without a dot, it has none.
  */
  lemma ExtensionIs(prefix: string, stem: string, ext: string, rest: string)
    requires IsPath(prefix) && IsPath(stem) && '/' !in stem && IsTail(rest)
    requires IsPath(ext) && '/' !in ext && '.' !in ext
    ensures ExtensionFromUrl(prefix + "/" + (stem + "." + ext) + rest)
            == if 1 <= |ext| <= 10 && (forall c :: c in ext ==> '0' <= c <= '9' || 'a' <= c <= 'z' || 'A' <= c <= 'Z')
               then Some(Lower(ext)) else None
    ensures '.' !in stem ==> ExtensionFromUrl(prefix + "/" + stem + rest) == None
  {
    hide LastSegment, Lower, IsExtension;
    ExtensionMeans(ext);
    SegmentOf(prefix, stem + "." + ext, rest);
    LastPiece(stem, '.', ext);
    SegmentOf(prefix, stem, rest);
  }

  predicate HasAt(bytes: seq<Byte>, at: nat, magic: seq<Byte>) {
    at + |magic| <= |bytes| && bytes[at..at + |magic|] == magic
  }

  const JPEG: seq<Byte> := [0xFF, 0xD8, 0xFF]
  const PNG: seq<Byte> := [0x89, 0x50, 0x4E, 0x47]
  const GIF: seq<Byte> := [0x47, 0x49, 0x46, 0x38]
  const RIFF: seq<Byte> := [0x52, 0x49, 0x46, 0x46]
  const WEBP: seq<Byte> := [0x57, 0x45, 0x42, 0x50]
  const FTYP: seq<Byte> := [0x66, 0x74, 0x79, 0x70]

  /** The four signatures at the start exclude each other; FTYP counts only when none of them is there. */
  lemma DetectFormats(bytes: seq<Byte>)
    ensures Detect(bytes) == "jpg" <==> HasAt(bytes, 0, JPEG)
    ensures Detect(bytes) == "png" <==> HasAt(bytes, 0, PNG)
    ensures Detect(bytes) == "gif" <==> HasAt(bytes, 0, GIF)
    ensures Detect(bytes) == "webp" <==> HasAt(bytes, 0, RIFF) && HasAt(bytes, 8, WEBP)
    ensures Detect(bytes) == "avif" <==> HasAt(bytes, 4, FTYP) && Detect(bytes) !in {"jpg", "png", "gif", "webp"}
    ensures Detect(bytes) in {"jpg", "png", "gif", "webp", "avif", "bin"}
  {
    assert |bytes| >= 3 ==> bytes[..3] == bytes[0..3] && bytes[0..3][0] == bytes[0];
    assert |bytes| >= 4 ==> bytes[..4] == bytes[0..4] && bytes[0..4][0] == bytes[0];
  }

  // ---------------------------------------------------------------- length and alphabet

  /** The part of a name from its last dot on; empty if it has no dot. */
  function Suffix(name: string): string {
    match LastIndex(name, '.')
    case Some(dot) => name[dot..]
    case None => []
  }

  lemma SubtractionWraps(ext: nat)
    requires MAX_NAME < ext <= MAX_STRING
    ensures (MAX_NAME - ext) % U64 == U64 + MAX_NAME - ext
  {
  }

  lemma Rejoined(name: string, dot: nat)
    requires dot <= |name|
    ensures name[..dot] + name[dot..] == name
  {
  }

  /** With a suffix longer than 200 the subtraction wraps, and the whole name passes for its stem. */
  lemma TruncateWraps(name: string)
    requires 200 < |Suffix(name)| && |name| <= MAX_STRING
    ensures Truncate(name) == name
  {
    hide LastIndex;
    var dot := LastIndex(name, '.').value;
    SubtractionWraps(|name| - dot);
    Rejoined(name, dot);
  }

  /** With a suffix shorter than 200 the stem is cut to make room for it. */
  lemma TruncateKeepsSuffix(name: string)
    requires |name| > 200 && 0 < |Suffix(name)| < 200
    ensures Truncate(name) == name[..200 - |Suffix(name)|] + Suffix(name)
  {
    hide LastIndex;
    var dot := LastIndex(name, '.').value;
    var maxStem := MAX_NAME - (|name| - dot);
    assert maxStem % U64 == maxStem && 0 < maxStem <= dot;
  }

  /** Without a suffix, or with one of exactly 200, the name is cut at 200. */
  lemma TruncateCutsOff(name: string)
    requires |name| > 200 && (|Suffix(name)| == 0 || |Suffix(name)| == 200)
    ensures Truncate(name) == name[..200]
  {
    hide LastIndex;
  }

  /**
    Truncation keeps a name of at most 200 characters as it is. A longer one comes out at exactly 200,
    with its suffix if that is shorter than 200, unless its suffix is longer than 200: then the
    subtraction wraps and the name is not cut at all.
  */
  lemma TruncateCuts(name: string)
    requires |name| <= MAX_STRING
    ensures |name| <= 200 ==> Truncate(name) == name
    ensures |name| > 200 && |Suffix(name)| <= 200 ==> |Truncate(name)| == 200
    ensures |name| > 200 && 0 < |Suffix(name)| < 200 ==>
              Truncate(name) == name[..200 - |Suffix(name)|] + Suffix(name)
    ensures |name| > 200 && |Suffix(name)| > 200 ==> Truncate(name) == name
    ensures |Truncate(name)| <= 200 <==> |name| <= 200 || |Suffix(name)| <= 200
  {
    hide Suffix;
    if |name| <= MAX_NAME {
    } else {
      hide Truncate;
      if |Suffix(name)| > MAX_NAME {
        TruncateWraps(name);
      } else if 0 < |Suffix(name)| < MAX_NAME {
        TruncateKeepsSuffix(name);
      } else {
        TruncateCutsOff(name);
      }
    }
  }

  lemma TruncateSafe(name: string)
    requires AllSafe(name) && name != []
    ensures AllSafe(Truncate(name)) && Truncate(name) != []
  {
  }

  /** A name made of a stem, a dot and a suffix without dots has that suffix. */
  lemma SuffixOf(stem: string, ext: string)
    requires '.' !in ext
    ensures Suffix(stem + "." + ext) == "." + ext
  {
    LastPiece(stem, '.', ext);
  }

  function Pow10(k: nat): nat {
    if k == 0 then 1 else 10 * Pow10(k - 1)
  }

  lemma {:induction false} DecimalLength(n: nat, k: nat)
    requires n < Pow10(k) && k >= 1
    ensures |Decimal(n)| <= k
  {
    if n >= 10 {
      DecimalLength(n / 10, k - 1);
    }
  }

  lemma IndexWidth(index: nat)
    requires index < U64
    ensures |Pad3(index)| <= 20
  {
    assert Pow10(5) == 100000;
    assert Pow10(10) == 100000 * 100000;
    assert Pow10(15) == 100000 * 100000 * 100000;
    assert Pow10(20) == 100000 * 100000 * 100000 * 100000;
    DecimalLength(index, 20);
  }

  lemma SafeMeans(name: string)
    ensures AllSafe(name) <==> forall c :: c in name ==> PlainChar(c)
  {
  }

  lemma SegmentShort(url: string)
    ensures |LastSegment(url)| <= |url|
  {
  }

  /** Names before truncation: safe, not empty, and long only if they come from the URL. */
  lemma RawNameSafe(url: string, index: nat, bytes: seq<Byte>, strategy: Strategy, urlDigest: seq<Byte>, bodyDigest: seq<Byte>)
    requires |urlDigest| == 32 && |bodyDigest| == 32 && |url| < MAX_STRING - 5 && index < U64
    ensures var raw := RawName(url, index, bytes, strategy, urlDigest, bodyDigest);
            && AllSafe(raw) && 1 <= |raw| <= MAX_STRING
            && (strategy == Sequential || strategy == ContentHash ==> |raw| <= MAX_NAME)
            && (strategy == FileHeader ==> |Suffix(raw)| <= MAX_NAME)
  {
    match strategy {
      case UrlBased => hide Suffix; SegmentShort(url);
      case Sequential => hide Suffix; IndexWidth(index);
      case ContentHash => hide Suffix;
      case FileHeader => FileHeaderSuffix(url, bytes, urlDigest);
    }
  }

  /**
    File names have 1 to 200 characters, all of them safe, for every input of every strategy, except
    for a UrlBased name longer than 200 whose suffix is longer than 200; that one is left as it is.
  */
  lemma NameBound(url: string, index: nat, bytes: seq<Byte>, strategy: Strategy, urlDigest: seq<Byte>, bodyDigest: seq<Byte>)
    requires |urlDigest| == 32 && |bodyDigest| == 32 && |url| < MAX_STRING - 5 && index < U64
    ensures var raw := RawName(url, index, bytes, strategy, urlDigest, bodyDigest);
            var name := GenerateFilename(url, index, bytes, strategy, urlDigest, bodyDigest);
            && (forall c :: c in name ==> PlainChar(c)) && |name| >= 1
            && (|name| <= 200 <==> strategy != UrlBased || |raw| <= 200 || |Suffix(raw)| <= 200)
            && (strategy == Sequential || strategy == ContentHash ==> name == raw)
  {
    hide RawName, Truncate, Suffix, AllSafe;
    RawNameSafe(url, index, bytes, strategy, urlDigest, bodyDigest);
    var raw := RawName(url, index, bytes, strategy, urlDigest, bodyDigest);
    TruncateCuts(raw);
    TruncateSafe(raw);
    SafeMeans(GenerateFilename(url, index, bytes, strategy, urlDigest, bodyDigest));
  }

  function As(n: nat): string {
    seq(n, _ => 'a')
  }

  const LONG_URL := "https://h/." + As(200)

  /** The UrlBased name of this URL is longer than 200, for every body. */
  lemma LongName(index: nat, bytes: seq<Byte>, urlDigest: seq<Byte>, bodyDigest: seq<Byte>)
    requires |urlDigest| == 32 && |bodyDigest| == 32
    ensures |GenerateFilename(LONG_URL, index, bytes, UrlBased, urlDigest, bodyDigest)| == 201
  {
    var segment := "." + As(200);
    assert LONG_URL == "https://h" + "/" + segment + [];
    SegmentOf("https://h", segment, []);
    assert AllSafe(segment) && segment[0] in segment;
    LastIndexIs(segment, '.', 0);
    TruncateWraps(segment);
  }

  lemma FileHeaderSuffix(url: string, bytes: seq<Byte>, urlDigest: seq<Byte>)
    requires |urlDigest| == 32
    ensures Suffix(FileHeaderName(url, bytes, urlDigest)) == "." + Detect(bytes)
    ensures |FileHeaderName(url, bytes, urlDigest)| <= |url| + 5 || |FileHeaderName(url, bytes, urlDigest)| <= 21
    ensures AllSafe(FileHeaderName(url, bytes, urlDigest))
  {
    var segment := LastSegment(url);
    if segment == [] || '.' !in segment {
      SuffixOf(Hex(urlDigest[..8]), Detect(bytes));
    } else {
      var safe := Sanitize(segment);
      match LastIndex(safe, '.')
      case Some(dot) => SuffixOf(safe[..dot], Detect(bytes));
      case None => SuffixOf(safe, Detect(bytes));
    }
  }

  // ---------------------------------------------------------------- what each strategy's name consists of

  /** The value of a lower-case hexadecimal digit; out of a byte's range for any other character. */
  ghost function Nibble(c: char): int {
    if '0' <= c <= '9' then c as int - '0' as int
    else if 'a' <= c <= 'f' then c as int - 'a' as int + 10
    else 256
  }

  /** Two hexadecimal digits for each byte, in order. */
  ghost predicate IsHexOf(text: string, bytes: seq<Byte>) {
    && |text| == 2 * |bytes|
    && forall i :: 0 <= i < |bytes| ==> 16 * Nibble(text[2 * i]) + Nibble(text[2 * i + 1]) == bytes[i]
  }

  lemma {:induction false} HexReads(bytes: seq<Byte>)
    ensures IsHexOf(Hex(bytes), bytes)
  {
    if bytes != [] {
      var rest := Hex(bytes[1..]);
      HexReads(bytes[1..]);
      var text := Hex(bytes);
      assert text == [HexDigit(bytes[0] / 16), HexDigit(bytes[0] % 16)] + rest;
      NibbleOf(bytes[0] / 16);
      NibbleOf(bytes[0] % 16);
      forall i | 0 <= i < |bytes|
        ensures 16 * Nibble(text[2 * i]) + Nibble(text[2 * i + 1]) == bytes[i]
      {
        if i > 0 {
          assert text[2 * i] == rest[2 * (i - 1)] && text[2 * i + 1] == rest[2 * (i - 1) + 1];
          assert bytes[i] == bytes[1..][i - 1];
        }
      }
    }
  }

  lemma NibbleOf(n: nat)
    requires n < 16
    ensures Nibble(HexDigit(n)) == n
  {
  }

  /** The extension a URL names, or else the one its body shows. */
  ghost predicate HasExtension(ext: string, url: string, bytes: seq<Byte>) {
    match ExtensionFromUrl(url)
    case Some(named) => ext == named
    case None => ext == Detect(bytes)
  }

  /**
    A sequential name is the padded index, a content-hash name the first 16 bytes of the body's digest;
    both go on with a dot and the extension, and neither is ever cut.
  */
  lemma NumberedNames(url: string, index: nat, bytes: seq<Byte>, urlDigest: seq<Byte>, bodyDigest: seq<Byte>) returns (ext: string)
    requires |urlDigest| == 32 && |bodyDigest| == 32 && index < U64
    ensures HasExtension(ext, url, bytes)
    ensures GenerateFilename(url, index, bytes, Sequential, urlDigest, bodyDigest) == Pad3(index) + "." + ext
    ensures var name := GenerateFilename(url, index, bytes, ContentHash, urlDigest, bodyDigest);
            |name| == 33 + |ext| && IsHexOf(name[..32], bodyDigest[..16]) && name[32..] == "." + ext
  {
    hide Hex, Pad3, Detect, ExtensionFromUrl, IsHexOf;
    ext := Extension(url, bytes);
    IndexWidth(index);
    HexReads(bodyDigest[..16]);
    var name := ContentHashName(url, bytes, bodyDigest);
    assert name[..32] == Hex(bodyDigest[..16]);
  }

  /** `text` is `s` with every character outside the safe alphabet replaced by an underscore. */
  ghost predicate Sanitized(text: string, s: string) {
    |text| == |s| && forall i :: 0 <= i < |s| ==> text[i] == if PlainChar(s[i]) then s[i] else '_'
  }

  /**
    Before it is cut, a UrlBased name is the URL's last segment, sanitized, if that has a dot; a
    FileHeader name is that up to its last dot and then the detected extension. Otherwise they are the
    first 16 or 8 bytes of the URL's digest with the extension bin or the detected one.
  */
  lemma UrlNames(url: string, index: nat, bytes: seq<Byte>, urlDigest: seq<Byte>, bodyDigest: seq<Byte>)
    requires |urlDigest| == 32 && |bodyDigest| == 32
    ensures var segment := LastSegment(url);
            var name := RawName(url, index, bytes, UrlBased, urlDigest, bodyDigest);
            var typed := RawName(url, index, bytes, FileHeader, urlDigest, bodyDigest);
            match LastIndex(segment, '.')
            case Some(dot) =>
              && Sanitized(name, segment)
              && dot < |typed| && Sanitized(typed[..dot], segment[..dot]) && typed[dot..] == "." + Detect(bytes)
            case None =>
              && |name| == 36 && IsHexOf(name[..32], urlDigest[..16]) && name[32..] == ".bin"
              && |typed| >= 16 && IsHexOf(typed[..16], urlDigest[..8]) && typed[16..] == "." + Detect(bytes)
  {
    hide Hex, Detect, LastSegment, LastIndex, IsHexOf;
    HexReads(urlDigest[..16]);
    HexReads(urlDigest[..8]);
    var segment := LastSegment(url);
    var name, typed := UrlBasedName(url, urlDigest), FileHeaderName(url, bytes, urlDigest);
    match LastIndex(segment, '.') {
      case Some(dot) =>
        var safe := Sanitize(segment);
        SameLastDot(segment, dot);
        assert typed[..dot] == safe[..dot] && typed[dot..] == "." + Detect(bytes);
      case None =>
        assert name[..32] == Hex(urlDigest[..16]) && name[32..] == ".bin";
        assert typed[..16] == Hex(urlDigest[..8]) && typed[16..] == "." + Detect(bytes);
    }
  }

  lemma SameLastDot(segment: string, dot: nat)
    requires LastIndex(segment, '.') == Some(dot)
    ensures LastIndex(Sanitize(segment), '.') == Some(dot)
  {
    LastIndexIs(Sanitize(segment), '.', dot);
  }

  // ---------------------------------------------------------------- sequential names

  function Value(digits: string): int {
    if digits == [] then 0 else 10 * Value(digits[..|digits| - 1]) + (digits[|digits| - 1] as int - '0' as int)
  }

  lemma {:induction false} DecimalValue(n: nat)
    ensures Value(Decimal(n)) == n
  {
    var d := Decimal(n);
    if n >= 10 {
      DecimalValue(n / 10);
      assert d[..|d| - 1] == Decimal(n / 10);
    } else {
      assert d[..|d| - 1] == [];
    }
  }

  lemma {:induction false} LeadingZero(digits: string)
    ensures Value("0" + digits) == Value(digits)
  {
    var d := "0" + digits;
    if digits == [] {
      assert d[..0] == [];
    } else {
      assert d[..|d| - 1] == "0" + digits[..|digits| - 1];
      LeadingZero(digits[..|digits| - 1]);
    }
  }

  /** Reading the padded number back gives the index. */
  lemma PadValue(n: nat)
    ensures Value(Pad3(n)) == n
  {
    var d := Decimal(n);
    DecimalValue(n);
    LeadingZero(d);
    LeadingZero("0" + d);
    assert "0" + ("0" + d) == "00" + d;
    assert "" + d == d;
  }

  lemma {:induction false} BeforeDot(stem: string, rest: string)
    requires '.' !in stem
    ensures Before(stem + "." + rest, '.') == stem
  {
    var s := stem + "." + rest;
    if stem != [] {
      assert s[0] == stem[0] && s[1..] == stem[1..] + "." + rest;
      BeforeDot(stem[1..], rest);
    }
  }

  function Sidecar(name: string): string {
    name + ".json"
  }

  /** What is left of an image name or a sidecar name after its first dot. */
  lemma SequentialParts(index: nat, url: string, bytes: seq<Byte>)
    ensures var name := SequentialName(index, url, bytes);
            && Value(Before(name, '.')) == index && Value(Before(Sidecar(name), '.')) == index
            && |Before(name, '.')| < |name| && |Before(Sidecar(name), '.')| < |Sidecar(name)|
            && '.' !in name[|Before(name, '.')| + 1..]
            && '.' in Sidecar(name)[|Before(Sidecar(name), '.')| + 1..]
            && IsDigit(name[0]) && IsDigit(Sidecar(name)[0])
  {
    hide Pad3, Extension, Value;
    var stem, ext := Pad3(index), Extension(url, bytes);
    var name := SequentialName(index, url, bytes);
    PadValue(index);
    BeforeDot(stem, ext);
    BeforeDot(stem, ext + ".json");
    assert Sidecar(name) == stem + "." + (ext + ".json");
    assert name[|stem| + 1..] == ext;
    assert Sidecar(name)[|stem| + 1..] == ext + ".json";
    assert (ext + ".json")[|ext|] == '.';
    assert name[0] == stem[0] && Sidecar(name)[0] == stem[0] && stem[0] in stem;
  }

  /** The image written for a URL of a batch under sequential naming, whatever its body. */
  function ImageName(urls: seq<string>, u: string, bodies: string -> seq<Byte>, urlDigest: seq<Byte>, bodyDigest: seq<Byte>): string
    requires u in urls && |urlDigest| == 32 && |bodyDigest| == 32
  {
    GenerateFilename(u, FirstIndex(urls, u), bodies(u), Sequential, urlDigest, bodyDigest)
  }

  lemma ImageNameIs(urls: seq<string>, u: string, bodies: string -> seq<Byte>, urlDigest: seq<Byte>, bodyDigest: seq<Byte>)
    requires u in urls && |urls| < U64 && |urlDigest| == 32 && |bodyDigest| == 32
    ensures ImageName(urls, u, bodies, urlDigest, bodyDigest) == SequentialName(FirstIndex(urls, u), u, bodies(u))
  {
    hide Pad3, Extension;
    IndexWidth(FirstIndex(urls, u));
  }

  lemma NotDigit()
    ensures !IsDigit("summary.json"[0])
  {
    assert "summary.json"[0] == 's';
  }

  /**
    Sequential naming is free of collisions over a whole batch: image names of distinct URLs differ
    and so do their sidecars, no image is also a sidecar, and neither is the summary file.
  */
  lemma SequentialNoCollision(urls: seq<string>, u: string, v: string, bodies: string -> seq<Byte>,
                              d: seq<Byte>, e: seq<Byte>, d': seq<Byte>, e': seq<Byte>)
    requires u in urls && v in urls && |urls| < U64
    requires |d| == 32 && |e| == 32 && |d'| == 32 && |e'| == 32
    ensures var x := ImageName(urls, u, bodies, d, e);
            var y := ImageName(urls, v, bodies, d', e');
            && (u != v ==> x != y && x + ".json" != y + ".json")
            && x != y + ".json" && x != "summary.json" && x + ".json" != "summary.json"
  {
    hide ImageName, GenerateFilename, SequentialName, Value, Before, FirstIndex, IsDigit;
    ImageNameIs(urls, u, bodies, d, e);
    ImageNameIs(urls, v, bodies, d', e');
    SequentialParts(FirstIndex(urls, u), u, bodies(u));
    SequentialParts(FirstIndex(urls, v), v, bodies(v));
    NotDigit();
  }
}
