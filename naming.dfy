/**
 * The pure string helpers the icon loop depends on: the empty-path test,
 * the storage key "{DefIndex}.jpg", the lookup name (text after the last '/')
 * and the CDN URL "{base}/{iconPath}".
 */
module Naming {
  import opened Wrappers

  /** Base address of the content delivery network icons are downloaded from. */
  const SteamCdnBaseUrl: string := "https://steamcdn-a.akamaihd.net/apps/570"

  /** Content type every icon is uploaded with. */
  const IconContentType: string := "image/jpg"

  /** File extension of every storage key. */
  const JpgExtension: string := ".jpg"

  // ---------------------------------------------------------------------------
  // String.IsNullOrWhiteSpace
  // ---------------------------------------------------------------------------

  /**
   * Char.IsWhiteSpace: the Unicode space, line and paragraph separators
   * together with U+0009..U+000D and U+0085.
   */
  predicate IsWhiteSpace(c: char)
  {
    var u := c as int;
    (0x09 <= u <= 0x0D) || u == 0x20 || u == 0x85 || u == 0xA0 || u == 0x1680
    || (0x2000 <= u <= 0x200A) || u == 0x2028 || u == 0x2029 || u == 0x202F
    || u == 0x205F || u == 0x3000
  }

  /** Scans the string front to back, stopping at the first non-white-space character. */
  function AllWhiteSpace(s: string): (r: bool)
    ensures r <==> forall i :: 0 <= i < |s| ==> IsWhiteSpace(s[i])
  {
    if |s| == 0 then true
    else if !IsWhiteSpace(s[0]) then false
    else
      var rest := AllWhiteSpace(s[1..]);
      assert forall i :: 1 <= i < |s| ==> s[i] == s[1..][i - 1];
      rest
  }

  /**
   * String.IsNullOrWhiteSpace on a possibly null string: false exactly when
   * the string is present and holds some character that is not white space.
   */
  function IsNullOrWhiteSpace(s: Option<string>): (r: bool)
    ensures !r <==> s.Some? && exists i :: 0 <= i < |s.value| && !IsWhiteSpace(s.value[i])
    ensures s == None || s == Some("") ==> r
  {
    match s
    case None => true
    case Some(t) => AllWhiteSpace(t)
  }

  // ---------------------------------------------------------------------------
  // Decimal rendering of DefIndex and the storage key
  // ---------------------------------------------------------------------------

  predicate IsDigit(c: char) { '0' <= c <= '9' }

  predicate AllDigits(s: string) { forall i :: 0 <= i < |s| ==> IsDigit(s[i]) }

  /** A non-empty digit string without leading zeros: what an unsigned integer renders to. */
  predicate IsCanonicalDecimal(s: string)
  {
    |s| >= 1 && AllDigits(s) && (s[0] == '0' ==> |s| == 1)
  }

  function DigitChar(d: nat): (c: char)
    requires d < 10
    ensures IsDigit(c) && c as int - '0' as int == d
  {
    ('0' as int + d) as char
  }

  function DigitValue(c: char): (d: nat)
    requires IsDigit(c)
    ensures d < 10 && DigitChar(d) == c
  {
    c as int - '0' as int
  }

  /** The invariant-culture decimal rendering of an unsigned integer, as string interpolation produces it. */
  function DecimalString(n: nat): (s: string)
    ensures IsCanonicalDecimal(s)
    ensures s[0] == '0' <==> n == 0
    decreases n
  {
    if n < 10 then [DigitChar(n)]
    else DecimalString(n / 10) + [DigitChar(n % 10)]
  }

  /** Reads a digit string back as a number: the partner of DecimalString. */
  function ParseDecimal(s: string): nat
    requires AllDigits(s)
    decreases |s|
  {
    if |s| == 0 then 0
    else ParseDecimal(s[..|s| - 1]) * 10 + DigitValue(s[|s| - 1])
  }

  /** Reading back the rendering of n gives n. */
  lemma {:induction false} ParseDecimalString(n: nat)
    ensures ParseDecimal(DecimalString(n)) == n
    decreases n
  {
    var s := DecimalString(n);
    if n >= 10 {
      ParseDecimalString(n / 10);
      assert s[..|s| - 1] == DecimalString(n / 10);
    }
  }

  /** A digit string with a non-zero first digit denotes a positive number. */
  lemma {:induction false} ParseDecimalPositive(s: string)
    requires |s| >= 1 && AllDigits(s) && s[0] != '0'
    ensures ParseDecimal(s) > 0
    decreases |s|
  {
    if |s| > 1 {
      ParseDecimalPositive(s[..|s| - 1]);
    }
  }

  /** Rendering the number a canonical digit string denotes gives that string back. */
  lemma {:induction false} DecimalStringOfParse(s: string)
    requires IsCanonicalDecimal(s)
    ensures DecimalString(ParseDecimal(s)) == s
    decreases |s|
  {
    var n := ParseDecimal(s);
    if |s| > 1 {
      var init := s[..|s| - 1];
      ParseDecimalPositive(init);
      DecimalStringOfParse(init);
      assert n / 10 == ParseDecimal(init) && n % 10 == DigitValue(s[|s| - 1]);
      assert s == init + [s[|s| - 1]];
    }
  }

  /** The file name an item's icon is stored under: "{DefIndex}.jpg". */
  function StorageKey(defIndex: nat): (key: string)
    ensures |key| > |JpgExtension|
    ensures key[|key| - |JpgExtension|..] == JpgExtension
    ensures IsCanonicalDecimal(key[..|key| - |JpgExtension|])
  {
    var digits := DecimalString(defIndex);
    assert (digits + JpgExtension)[..|digits|] == digits;
    digits + JpgExtension
  }

  /** Recovers the DefIndex from a storage key, or None for a name no item is stored under. */
  function DefIndexOfKey(key: string): (r: Option<nat>)
  {
    if |key| > |JpgExtension| && key[|key| - |JpgExtension|..] == JpgExtension
       && IsCanonicalDecimal(key[..|key| - |JpgExtension|])
    then Some(ParseDecimal(key[..|key| - |JpgExtension|]))
    else None
  }

  /** Decoding the key of an item gives its DefIndex back. */
  lemma StorageKeyRoundTrip(defIndex: nat)
    ensures DefIndexOfKey(StorageKey(defIndex)) == Some(defIndex)
  {
    var key := StorageKey(defIndex);
    assert key[..|key| - |JpgExtension|] == DecimalString(defIndex);
    ParseDecimalString(defIndex);
  }

  /** Every name that decodes to a DefIndex is exactly that item's key. */
  lemma KeyOfDefIndex(key: string, defIndex: nat)
    requires DefIndexOfKey(key) == Some(defIndex)
    ensures StorageKey(defIndex) == key
  {
    var digits := key[..|key| - |JpgExtension|];
    DecimalStringOfParse(digits);
    assert key == digits + JpgExtension;
  }

  /** Two items share a storage key exactly when they share a DefIndex. */
  lemma StorageKeyInjective(a: nat, b: nat)
    ensures StorageKey(a) == StorageKey(b) <==> a == b
  {
    if StorageKey(a) == StorageKey(b) {
      StorageKeyRoundTrip(a);
      StorageKeyRoundTrip(b);
    }
  }

  // ---------------------------------------------------------------------------
  // Lookup name and CDN URL (GetItemIconFromSteamAsync)
  // ---------------------------------------------------------------------------

  /** String.LastIndexOf(char): the position of the last occurrence of c, or -1. */
  function LastIndexOf(s: string, c: char): (r: int)
    ensures -1 <= r < |s|
    ensures r >= 0 ==> s[r] == c
    ensures forall i :: r < i < |s| ==> s[i] != c
    decreases |s|
  {
    if |s| == 0 then -1
    else if s[|s| - 1] == c then |s| - 1
    else LastIndexOf(s[..|s| - 1], c)
  }

  /**
   * The item name passed to the icon-path lookup: the text after the last '/'
   * of the inventory path (Substring(LastIndexOf('/') + 1)), the whole path
   * when it has no '/'. It is the longest suffix of the path without a '/'.
   */
  function LookupName(path: string): (name: string)
    ensures |name| <= |path| && path[|path| - |name|..] == name
    ensures forall i :: 0 <= i < |name| ==> name[i] != '/'
    ensures |name| < |path| ==> path[|path| - |name| - 1] == '/'
  {
    var name := path[LastIndexOf(path, '/') + 1..];
    assert forall i :: 0 <= i < |name| ==> name[i] == path[LastIndexOf(path, '/') + 1 + i];
    name
  }

  /** A path without '/' is its own lookup name. */
  lemma LookupNameWithoutSlash(path: string)
    requires forall i :: 0 <= i < |path| ==> path[i] != '/'
    ensures LookupName(path) == path
  {
  }

  /**
   * The lookup name is the only suffix of the path that holds no '/' and is
   * either the whole path or preceded by a '/'.
   */
  lemma LookupNameUnique(path: string, t: string)
    requires |t| <= |path| && path[|path| - |t|..] == t
    requires forall i :: 0 <= i < |t| ==> t[i] != '/'
    requires |t| < |path| ==> path[|path| - |t| - 1] == '/'
    ensures t == LookupName(path)
  {
  }

  /** The download address "{base}/{iconPath}" of a resolved icon path. */
  function IconUrl(base: string, iconPath: string): string
  {
    base + "/" + iconPath
  }

  /** The URL is the base, a '/', then the icon path: both can be read back from it. */
  lemma IconUrlParts(base: string, iconPath: string)
    ensures var url := IconUrl(base, iconPath);
            && |url| == |base| + 1 + |iconPath|
            && url[..|base|] == base && url[|base|] == '/' && url[|base| + 1..] == iconPath
  {
  }

  /** Distinct icon paths give distinct URLs under one base. */
  lemma IconUrlInjective(base: string, p: string, q: string)
    ensures IconUrl(base, p) == IconUrl(base, q) <==> p == q
  {
    IconUrlParts(base, p);
    IconUrlParts(base, q);
  }
}
