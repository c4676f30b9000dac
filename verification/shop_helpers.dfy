/** The e-commerce dashboard's pure helpers: the avatar colour hash, text
    truncation, the status-to-colour table, the percentage-change guard,
    grouping, initials, and the sidebar's active-link test. */
module ShopHelpers {
  import opened Wrappers
  import opened Seqs
  import opened Text

  /** JavaScript's ToInt32: the integer taken modulo 2^32 into the signed
      32-bit range. */
  function ToInt32(x: int): (r: int)
    ensures -0x8000_0000 <= r < 0x8000_0000
    ensures (x - r) % 0x1_0000_0000 == 0
    ensures -0x8000_0000 <= x < 0x8000_0000 ==> r == x
  {
    var m := x % 0x1_0000_0000;
    if m >= 0x8000_0000 then m - 0x1_0000_0000 else m
  }

  /** `h << 5`: the left operand is converted to int32 and so is the result. */
  function ShiftLeft5(h: int): (r: int)
    ensures -0x8000_0000 <= r < 0x8000_0000
  {
    ToInt32(ToInt32(h) * 32)
  }

  /** The hash `stringToColor` accumulates: for each character,
      `hash = code + ((hash << 5) - hash)`. Only the shift is 32-bit; the
      addition and subtraction are exact. */
  function ColorHash(s: string): int
    decreases |s|
  {
    if |s| == 0 then 0
    else
      var h := ColorHash(s[..|s| - 1]);
      s[|s| - 1] as int + (ShiftLeft5(h) - h)
  }

  /** `(hash >> (i * 8)) & 0xff` for `i` in 0, 1, 2: an arithmetic shift of
      the int32 value, then its low byte. */
  function ColorByte(hash: int, i: nat): (b: nat)
    requires i < 3
    ensures b < 256
  {
    var shift := if i == 0 then 1 else if i == 1 then 0x100 else 0x1_0000;
    (ToInt32(hash) / shift) % 256
  }

  /** A lower-case hexadecimal digit, as `toString(16)` writes them. */
  predicate IsHexChar(c: char) { '0' <= c <= '9' || 'a' <= c <= 'f' }

  function HexDigit(d: nat): (c: char)
    requires d < 16
    ensures IsHexChar(c)
  {
    if d < 10 then ('0' as int + d) as char else ('a' as int + d - 10) as char
  }

  /** The value of a lower-case hexadecimal digit. */
  function HexDigitValue(c: char): (d: nat)
    ensures d < 16
    ensures IsHexChar(c) ==> HexDigit(d) == c
  {
    if '0' <= c <= '9' then c as int - '0' as int
    else if 'a' <= c <= 'f' then c as int - 'a' as int + 10
    else 0
  }

  /** `v.toString(16)` for a non-negative integer. */
  function ToHex(v: nat): (s: string)
    ensures |s| >= 1
    ensures forall i | 0 <= i < |s| :: IsHexChar(s[i])
  {
    if v < 16 then [HexDigit(v)] else ToHex(v / 16) + [HexDigit(v % 16)]
  }

  /** `` `00${v.toString(16)}`.slice(-2) ``. */
  function PadHex(v: nat): string {
    var padded := "00" + ToHex(v);
    JsSlice(padded, -2, |padded|)
  }

  /** For a byte, the padding yields exactly its two hex digits, high first. */
  lemma PadHexByte(v: nat)
    requires v < 256
    ensures PadHex(v) == [HexDigit(v / 16), HexDigit(v % 16)]
  {
    var padded := "00" + ToHex(v);
    if v < 16 {
      assert padded == ['0', '0', HexDigit(v)];
    } else {
      assert ToHex(v) == [HexDigit(v / 16), HexDigit(v % 16)];
      assert padded == ['0', '0', HexDigit(v / 16), HexDigit(v % 16)];
    }
  }

  /** `stringToColor`: `'#'` and three two-digit bytes of the hash, lowest
      byte first. */
  function StringToColor(s: string): (r: string)
    ensures |r| == 7 && r[0] == '#'
    ensures forall i | 1 <= i < 7 :: IsHexChar(r[i])
  {
    var h := ColorHash(s);
    PadHexByte(ColorByte(h, 0));
    PadHexByte(ColorByte(h, 1));
    PadHexByte(ColorByte(h, 2));
    "#" + PadHex(ColorByte(h, 0)) + PadHex(ColorByte(h, 1)) + PadHex(ColorByte(h, 2))
  }

  /** Reading a two-digit hex pair. */
  function HexPairValue(p: string): (v: nat)
    requires |p| == 2
    ensures v < 256
  {
    16 * HexDigitValue(p[0]) + HexDigitValue(p[1])
  }

  /** Decoding the colour gives back the low 24 bits of the 32-bit hash: the
      colour is exactly that value written as three little-endian bytes. */
  lemma ColorEncodesHash(s: string)
    ensures var r := StringToColor(s);
      HexPairValue(r[1..3]) + 0x100 * HexPairValue(r[3..5]) + 0x1_0000 * HexPairValue(r[5..7])
        == ToInt32(ColorHash(s)) % 0x100_0000
  {
    var h := ColorHash(s);
    var r := StringToColor(s);
    PadHexByte(ColorByte(h, 0));
    PadHexByte(ColorByte(h, 1));
    PadHexByte(ColorByte(h, 2));
    assert r[1..3] == PadHex(ColorByte(h, 0));
    assert r[3..5] == PadHex(ColorByte(h, 1));
    assert r[5..7] == PadHex(ColorByte(h, 2));
    HexPairOfByte(ColorByte(h, 0));
    HexPairOfByte(ColorByte(h, 1));
    HexPairOfByte(ColorByte(h, 2));
    LowBytes(ToInt32(h));
  }

  lemma HexPairOfByte(v: nat)
    requires v < 256
    ensures HexPairValue([HexDigit(v / 16), HexDigit(v % 16)]) == v
  {
  }

  /** Three successive bytes of `u` spell out `u` modulo 2^24. */
  lemma LowBytes(u: int)
    ensures u % 256 + 0x100 * ((u / 0x100) % 256) + 0x1_0000 * ((u / 0x1_0000) % 256) == u % 0x100_0000
  {
    var a, r0 := u / 256, u % 256;
    var b, r1 := a / 256, a % 256;
    var c, r2 := b / 256, b % 256;
    assert u == 0x1_0000 * b + (256 * r1 + r0) by {
      assert u == 256 * a + r0;
      assert a == 256 * b + r1;
    }
    assert u / 0x1_0000 == b by {
      assert 0 <= 256 * r1 + r0 < 0x1_0000;
    }
    assert u == 0x100_0000 * c + (0x1_0000 * r2 + 256 * r1 + r0) by {
      assert b == 256 * c + r2;
    }
    assert u % 0x100_0000 == 0x1_0000 * r2 + 256 * r1 + r0 by {
      assert 0 <= 0x1_0000 * r2 + 256 * r1 + r0 < 0x100_0000;
    }
  }

  /** The empty name hashes to 0 and gets black. */
  lemma EmptyNameIsBlack()
    ensures StringToColor("") == "#000000"
  {
    assert ColorHash("") == 0;
    assert ColorByte(0, 0) == 0 && ColorByte(0, 1) == 0 && ColorByte(0, 2) == 0;
    PadHexByte(0);
    assert PadHex(0) == "00";
  }

  /** `truncateText(text, maxLength)` from the dashboard helpers: `''` for a
      missing or empty text, the text itself when it fits, otherwise its first
      `maxLength` characters (none when `maxLength` is negative) and `'...'`. */
  function TruncateText(text: Option<string>, maxLength: int): (r: string)
    ensures text.None? || text == Some("") ==> r == ""
    ensures text.Some? && |text.value| <= maxLength ==> r == text.value
    ensures text.Some? && text.value != "" && |text.value| > maxLength ==>
      var keep := MaxZero(maxLength);
      |r| == keep + 3 && r[..keep] == text.value[..keep] && r[keep..] == "..."
  {
    match text
    case None => ""
    case Some(t) =>
      if t == "" then ""
      else if |t| <= maxLength then t
      else t[..MaxZero(maxLength)] + "..."
  }

  /** Truncating an already truncated text changes nothing, and the result
      never grows by more than the ellipsis. */
  lemma TruncateTextIdempotent(text: Option<string>, maxLength: int)
    ensures TruncateText(Some(TruncateText(text, maxLength)), maxLength) == TruncateText(text, maxLength)
    ensures |TruncateText(text, maxLength)| <= (if text.Some? then |text.value| else 0)
                                               || |TruncateText(text, maxLength)| == MaxZero(maxLength) + 3
  {
    var r := TruncateText(text, maxLength);
    if text.Some? && text.value != "" && |text.value| > maxLength {
      var keep := MaxZero(maxLength);
      assert r != "" && |r| > maxLength;
      assert TruncateText(Some(r), maxLength) == r[..keep] + "...";
      assert r[..keep] + "..." == r;
    }
  }

  /** `getStatusColor`'s table. */
  const StatusColors: map<string, string> := map[
    "pending" := "warning", "processing" := "info", "shipped" := "primary",
    "delivered" := "success", "cancelled" := "error",
    "inStock" := "success", "lowStock" := "warning", "outOfStock" := "error",
    "active" := "success", "inactive" := "default", "archived" := "error"]

  /** `getStatusColor`: the lower-cased status looked up in the table, with
      `'default'` when it is absent (every stored colour is non-empty). */
  function StatusColor(status: string): (r: string)
    ensures r in {"warning", "info", "primary", "success", "error", "default"}
    ensures Lower(status) in StatusColors ==> r == StatusColors[Lower(status)]
  {
    Lookup(StatusColors, Lower(status), "default")
  }

  /** The lookup ignores case: every spelling of a status gets the colour of
      its lower-case form. */
  lemma StatusColorIgnoresCase(status: string)
    ensures StatusColor(status) == StatusColor(Lower(status))
    ensures StatusColor(status) == StatusColor(Upper(status))
  {
    LowerIdempotent(status);
    assert Lower(Upper(status)) == Lower(status);
  }

  /** The camel-case keys are never hit: no lower-cased text equals them, so
      their own spelling falls back to `'default'`. */
  lemma CamelCaseKeysUnreachable(status: string)
    ensures Lower(status) != "inStock" && Lower(status) != "lowStock" && Lower(status) != "outOfStock"
    ensures StatusColor("inStock") == "default" && StatusColor("lowStock") == "default"
    ensures StatusColor("outOfStock") == "default"
  {
    if |status| == 7 {
      assert !IsUpper(Lower(status)[2]) && "inStock"[2] == 'S';
    } else if |status| == 8 {
      assert !IsUpper(Lower(status)[3]) && "lowStock"[3] == 'S';
    } else if |status| == 10 {
      assert !IsUpper(Lower(status)[3]) && "outOfStock"[3] == 'O';
    }
    assert Lower("inStock") == "instock" && "instock" !in StatusColors;
    assert Lower("lowStock") == "lowstock" && "lowstock" !in StatusColors;
    assert Lower("outOfStock") == "outofstock" && "outofstock" !in StatusColors;
  }

  /** `calculatePercentageChange` over the reals: with no previous value the
      change is 100 for growth and 0 otherwise. */
  function PercentageChange(current: real, previous: real): (r: real)
    ensures previous == 0.0 ==> r == (if current > 0.0 then 100.0 else 0.0)
  {
    if previous == 0.0 then (if current > 0.0 then 100.0 else 0.0)
    else ((current - previous) / previous) * 100.0
  }

  /** Away from the guard, applying the change to the previous value gives
      the current one back. */
  lemma PercentageChangeRoundTrip(current: real, previous: real)
    requires previous != 0.0
    ensures previous + previous * PercentageChange(current, previous) / 100.0 == current
  {
  }

  /** `groupBy(array, key)`: a group per key that occurs, holding the
      elements with that key in input order. Keys are property names, hence
      strings. */
  function GroupBy<T(!new)>(s: seq<T>, key: T -> string): (r: map<string, seq<T>>)
    ensures forall k :: k in r <==> k in Map(s, key)
    ensures forall k | k in r :: r[k] == Filter(s, KeyIs(key, k))
    decreases |s|
  {
    if |s| == 0 then map[]
    else
      var init, x := s[..|s| - 1], s[|s| - 1];
      LastSplit(s);
      var m := GroupBy(init, key);
      var r := m[key(x) := Lookup(m, key(x), []) + [x]];
      GroupByStep(s, init, x, key, m, r);
      r
  }

  /** Appending `x` to the group of its key extends the grouping of `init`
      to a grouping of `init + [x]`. */
  lemma GroupByStep<T(!new)>(s: seq<T>, init: seq<T>, x: T, key: T -> string, m: map<string, seq<T>>, r: map<string, seq<T>>)
    requires s == init + [x]
    requires forall k :: k in m <==> k in Map(init, key)
    requires forall k | k in m :: m[k] == Filter(init, KeyIs(key, k))
    requires r == m[key(x) := Lookup(m, key(x), []) + [x]]
    ensures forall k :: k in r <==> k in Map(s, key)
    ensures forall k | k in r :: r[k] == Filter(s, KeyIs(key, k))
  {
    assert Map(s, key) == Map(init, key) + [key(x)];
    forall k | k in r ensures r[k] == Filter(s, KeyIs(key, k)) {
      var g := Lookup(m, k, []);
      if k !in m {
        NoneWithKey(init, key, k);
      }
      GroupValueStep(init, x, key, g, k);
    }
  }

  lemma GroupValueStep<T(!new)>(init: seq<T>, x: T, key: T -> string, g: seq<T>, k: string)
    requires g == Filter(init, KeyIs(key, k))
    ensures (if key(x) == k then g + [x] else g) == Filter(init + [x], KeyIs(key, k))
  {
    FilterAppend(init, [x], KeyIs(key, k));
    assert Filter([x], KeyIs(key, k)) == if key(x) == k then [x] else [];
  }

  /** A key no element carries selects nothing. */
  lemma NoneWithKey<T(!new)>(s: seq<T>, key: T -> string, k: string)
    requires k !in Map(s, key)
    ensures Filter(s, KeyIs(key, k)) == []
  {
    forall i | 0 <= i < |s| ensures !KeyIs(key, k)(s[i]) {
      assert Map(s, key)[i] == key(s[i]);
    }
    FilterNone(s, KeyIs(key, k));
  }

  /** Every element lands in exactly one group: the group sizes over the
      distinct keys add up to the input length. */
  lemma GroupSizesCoverInput<T(!new)>(s: seq<T>, key: T -> string)
    ensures var r := GroupBy(s, key);
      SumOver(Dedup(Map(s, key)), k => |Lookup(r, k, [])|) == |s|
  {
    var r := GroupBy(s, key);
    var ks := Dedup(Map(s, key));
    assert forall i | 0 <= i < |s| :: key(s[i]) in ks by {
      forall i | 0 <= i < |s| ensures key(s[i]) in ks {
        assert Map(s, key)[i] == key(s[i]);
      }
    }
    CountsCover(s, key, ks);
    forall k ensures |Lookup(r, k, [])| == CountKey(s, key, k) {
      GroupSize(s, key, k);
    }
    SumOverAdd(ks, k => CountKey(s, key, k), k => 0, k => |Lookup(r, k, [])|);
    SumZero(ks, k => 0);
  }

  /** A group's size is the number of elements with its key, and a key
      without elements has no group. */
  lemma GroupSize<T(!new)>(s: seq<T>, key: T -> string, k: string)
    ensures |Lookup(GroupBy(s, key), k, [])| == CountKey(s, key, k)
  {
    if k !in GroupBy(s, key) {
      NoneWithKey(s, key, k);
    }
  }

  predicate NonEmpty(p: string) { |p| > 0 }

  /** The first characters of a list of non-empty strings. */
  function Heads(ps: seq<string>): (r: string)
    requires forall i | 0 <= i < |ps| :: NonEmpty(ps[i])
    ensures |r| == |ps|
  {
    seq(|ps|, i requires 0 <= i < |ps| && NonEmpty(ps[i]) => ps[i][0])
  }

  /** `parts.map(part => part[0]).join('')`: an empty part yields `undefined`,
      which `join` writes as nothing. */
  function FirstChars(parts: seq<string>): (r: string)
    ensures r == Heads(Filter(parts, NonEmpty))
  {
    if |parts| == 0 then ""
    else
      var rest := FirstChars(parts[1..]);
      if NonEmpty(parts[0]) then
        assert Filter(parts, NonEmpty) == [parts[0]] + Filter(parts[1..], NonEmpty);
        [parts[0][0]] + rest
      else rest
  }

  /** `getInitials`: `''` for a missing or empty name, otherwise the first
      letters of the space-separated parts, upper-cased and cut to two. */
  function Initials(name: Option<string>): (r: string)
    ensures |r| <= 2
    ensures name.None? || name == Some("") ==> r == ""
  {
    match name
    case None => ""
    case Some(n) =>
      if n == "" then ""
      else
        var up := Upper(FirstChars(Split(n, ' ')));
        if |up| <= 2 then up else up[..2]
  }

  /** For words joined by single spaces, the initials are the upper-cased
      first letters of the first two words. */
  lemma InitialsOfWords(words: seq<string>)
    requires |words| >= 1
    requires forall i | 0 <= i < |words| :: NonEmpty(words[i]) && ' ' !in words[i]
    ensures var up := Upper(Heads(words));
      Initials(Some(Join(words, ' '))) == if |words| <= 2 then up else up[..2]
  {
    SplitJoin(words, ' ');
    FilterAll(words, NonEmpty);
    assert Join(words, ' ') != "" by {
      JoinStartsWithFirst(words, ' ');
    }
  }

  lemma JoinStartsWithFirst(parts: seq<string>, sep: char)
    requires |parts| >= 1
    ensures |Join(parts, sep)| >= |parts[0]| && Join(parts, sep)[..|parts[0]|] == parts[0]
  {
  }

  /** The sidebar's `isActive(path)` against the current location: the root
      link only on `'/'`, any other link whenever the location starts with
      its path. */
  function IsActive(path: string, pathname: string): (r: bool)
    ensures path == "/" ==> (r <==> pathname == "/")
    ensures path != "/" ==> (r <==> StartsWith(pathname, path))
  {
    if path == "/" && pathname == "/" then true
    else if path != "/" && StartsWith(pathname, path) then true
    else false
  }

  const NavPaths: seq<string> := ["/", "/products", "/orders", "/customers", "/analytics", "/settings", "/help"]

  /** A link stays lit on every route below it, and also on any route that
      merely continues its text, since no segment boundary is checked. */
  lemma ActiveOnDetailRoutes(path: string, rest: string)
    requires path != "/"
    ensures IsActive(path, path + rest)
    ensures IsActive("/products", "/products/12") && IsActive("/products", "/productsfoo")
  {
    assert (path + rest)[..|path|] == path;
    assert ("/products/12")[..9] == "/products";
    assert ("/productsfoo")[..9] == "/products";
  }

  /** On any route at most one sidebar link is active. */
  lemma AtMostOneActive(pathname: string, i: nat, j: nat)
    requires i < |NavPaths| && j < |NavPaths| && i != j
    ensures !(IsActive(NavPaths[i], pathname) && IsActive(NavPaths[j], pathname))
  {
    if IsActive(NavPaths[i], pathname) && IsActive(NavPaths[j], pathname) {
      if i != 0 && j != 0 {
        SecondCharAgrees(pathname, NavPaths[i]);
        SecondCharAgrees(pathname, NavPaths[j]);
      }
      assert false;
    }
  }

  lemma SecondCharAgrees(pathname: string, path: string)
    requires |path| >= 2 && StartsWith(pathname, path)
    ensures |pathname| >= 2 && pathname[1] == path[1]
  {
    assert pathname[..|path|][1] == pathname[1];
  }
}
