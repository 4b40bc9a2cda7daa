/**
 * The browser's item index and colour helpers
 * (dlgr/griduniverse/static/scripts/items.js): `GridItems` keeps two
 * `Map`s keyed by `JSON.stringify` of positions and by item id, and an
 * item's colour is blended between two hex colours by its maturity.
 * Numbers are exact reals with an explicit `NaN`; strings are sequences
 * of characters.
 */
module ItemsJs {
  import opened Base
  import opened PyStr

  // ---------------------------------------------------------------------
  // JSON keys for positions

  /** `JSON.stringify` of an integer: an optional minus sign, then decimal digits. */
  function StringifyInt(n: int): string {
    ShowInt(n)
  }

  /** `JSON.stringify([row, col])`, the key both maps use. */
  function Stringify(p: Pos): string {
    "[" + StringifyInt(p.row) + "," + StringifyInt(p.col) + "]"
  }

  /** The digits of a JSON integer: `0`, or a run not starting with `0`. */
  predicate JsonDigits(d: string) {
    d != [] && AllDigits(d) && (d[0] == '0' ==> |d| == 1)
  }

  /** `JSON.parse` of a JSON integer; `None` where it throws `SyntaxError`. */
  function ParseJsonInt(s: string): Option<int> {
    if s != [] && s[0] == '-' then
      if JsonDigits(s[1..]) then Some(-(DigitsValue(s[1..]) as int)) else None
    else if JsonDigits(s) then Some(DigitsValue(s))
    else None
  }

  /** `JSON.parse` of a two-integer array without spaces. */
  function ParseKey(s: string): Option<Pos> {
    if |s| >= 2 && s[0] == '[' && s[|s| - 1] == ']' then
      var parts := Split(s[1..|s| - 1], ',');
      if |parts| == 2 then
        match ParseJsonInt(parts[0])
          case None => None
          case Some(row) =>
            match ParseJsonInt(parts[1])
              case None => None
              case Some(col) => Some(Pos(row, col))
      else None
    else None
  }

  /** `str(n)` starts with `0` only for zero itself. */
  lemma {:induction false} ShowNoLeadingZero(n: nat)
    ensures JsonDigits(Show(n))
  {
    if n >= 10 {
      ShowNoLeadingZero(n / 10);
      assert Show(n)[0] == Show(n / 10)[0];
    }
  }

  lemma ParseStringifyInt(n: int)
    ensures ParseJsonInt(StringifyInt(n)) == Some(n)
    ensures ',' !in StringifyInt(n)
  {
    var m: nat := if n < 0 then -n else n;
    ShowNoLeadingZero(m);
    ShowValue(m);
    var s := StringifyInt(n);
    if n < 0 {
      assert s[1..] == Show(m);
    }
    assert forall k :: 0 <= k < |s| ==> s[k] == '-' || IsDigit(s[k]);
  }

  /** `JSON.parse(JSON.stringify(p))` gives `p` back. */
  lemma ParseStringify(p: Pos)
    ensures ParseKey(Stringify(p)) == Some(p)
  {
    var a, b := StringifyInt(p.row), StringifyInt(p.col);
    ParseStringifyInt(p.row);
    ParseStringifyInt(p.col);
    var s := Stringify(p);
    assert s[1..|s| - 1] == JoinWith([a, b], ',');
    JoinSplit([a, b], ',');
  }

  /** Every position key parses back to its position. */
  lemma KeysParse()
    ensures forall p :: ParseKey(Stringify(p)) == Some(p)
  {
    forall p ensures ParseKey(Stringify(p)) == Some(p) {
      ParseStringify(p);
    }
  }

  /** Distinct positions have distinct keys. */
  lemma StringifyInjective(p: Pos, q: Pos)
    ensures Stringify(p) == Stringify(q) <==> p == q
  {
    ParseStringify(p);
    ParseStringify(q);
  }

  // ---------------------------------------------------------------------
  // The item index

  /** An `Item` as the client sees it; `position` is `undefined` (`None`) until set. */
  datatype JsItem = JsItem(id: int, itemId: string, maturity: real, position: Option<Pos>)

  /** `GridItems`: the items lying on the grid, by position key and by id. */
  class GridItems {
    var itemsByPosition: map<string, JsItem>
    var positionsById: map<int, string>

    constructor ()
      ensures itemsByPosition == map[] && positionsById == map[]
    {
      itemsByPosition := map[];
      positionsById := map[];
    }

    /** `add(item, position)` */
    method Add(item: JsItem, position: Pos)
      modifies this
      ensures itemsByPosition == old(itemsByPosition)[Stringify(position) := item]
      ensures positionsById == old(positionsById)[item.id := Stringify(position)]
      ensures AtPosition(position) == Some(item) && PositionOf(item) == Ok(position)
    {
      itemsByPosition := itemsByPosition[Stringify(position) := item];
      positionsById := positionsById[item.id := Stringify(position)];
      ParseStringify(position);
    }

    /** `atPosition(position)`; `None` for `undefined`. */
    function AtPosition(position: Pos): (r: Option<JsItem>)
      reads this
      ensures r.Some? <==> Stringify(position) in itemsByPosition
      ensures r.Some? ==> r.value in itemsByPosition.Values
    {
      var key := Stringify(position);
      if key in itemsByPosition then Some(itemsByPosition[key]) else None
    }

    /**
     * `positionOf(item)`: the position whose key is stored for the item's
     * id; `JSON.parse(undefined)` throws for an unknown id.
     */
    function PositionOf(item: JsItem): (r: Result<Pos>)
      reads this
      ensures item.id !in positionsById ==> r == Err("SyntaxError")
      ensures forall p :: item.id in positionsById && positionsById[item.id] == Stringify(p) ==> r == Ok(p)
    {
      KeysParse();
      if item.id !in positionsById then Err("SyntaxError")
      else match ParseKey(positionsById[item.id])
        case Some(p) => Ok(p)
        case None => Err("SyntaxError")
    }

    /**
     * `remove(item)`: the id entry always goes; the position entry goes only
     * under the key of `item.position`, whatever position it was added at.
     */
    method Remove(item: JsItem)
      modifies this
      ensures itemsByPosition == if item.position.Some? then old(itemsByPosition) - {Stringify(item.position.value)} else old(itemsByPosition)
      ensures positionsById == old(positionsById) - {item.id}
    {
      if item.position.Some? {
        itemsByPosition := itemsByPosition - {Stringify(item.position.value)};
      }
      positionsById := positionsById - {item.id};
    }
  }

  /**
   * Adding `item` at `p` and then removing it while its `position` says `q`
   * leaves it findable at `p` exactly when `q` differs from `p`; its id
   * entry is gone either way.
   */
  lemma RemoveStale(byPosition: map<string, JsItem>, byId: map<int, string>, item: JsItem, p: Pos, q: Pos)
    requires item.position == Some(q)
    ensures var after := byPosition[Stringify(p) := item] - {Stringify(q)};
      (Stringify(p) in after <==> p != q) && (p != q ==> after[Stringify(p)] == item)
    ensures item.id !in (byId[item.id := Stringify(p)] - {item.id})
  {
    StringifyInjective(p, q);
  }

  // ---------------------------------------------------------------------
  // Numbers and `parseInt`

  /** A JavaScript number: a finite value, or `NaN`. */
  datatype JsNum = Finite(x: real) | NaN

  function NumAdd(a: JsNum, b: JsNum): JsNum {
    if a.Finite? && b.Finite? then Finite(a.x + b.x) else NaN
  }

  function NumSub(a: JsNum, b: JsNum): JsNum {
    if a.Finite? && b.Finite? then Finite(a.x - b.x) else NaN
  }

  function NumMul(a: JsNum, b: JsNum): JsNum {
    if a.Finite? && b.Finite? then Finite(a.x * b.x) else NaN
  }

  /** The white space and line terminators `parseInt` skips at the front. */
  predicate IsJsSpace(c: char) {
    9 <= c as int <= 13 || c == ' ' || c as int == 0xA0 || c as int == 0x1680 ||
    0x2000 <= c as int <= 0x200A || c as int == 0x2028 || c as int == 0x2029 ||
    c as int == 0x202F || c as int == 0x205F || c as int == 0x3000 || c as int == 0xFEFF
  }

  function SkipSpace(s: string): string {
    if s != [] && IsJsSpace(s[0]) then SkipSpace(s[1..]) else s
  }

  predicate IsHexDigit(c: char) {
    '0' <= c <= '9' || 'a' <= c <= 'f' || 'A' <= c <= 'F'
  }

  function HexDigitValue(c: char): (v: nat)
    requires IsHexDigit(c)
    ensures v < 16
  {
    if '0' <= c <= '9' then c as int - '0' as int
    else if 'a' <= c <= 'f' then c as int - 'a' as int + 10
    else c as int - 'A' as int + 10
  }

  /** The length of the run of hex digits at the front of `s`. */
  function HexRun(s: string): (n: nat)
    ensures n <= |s| && forall k :: 0 <= k < n ==> IsHexDigit(s[k])
    ensures n < |s| ==> !IsHexDigit(s[n])
  {
    if s != [] && IsHexDigit(s[0]) then 1 + HexRun(s[1..]) else 0
  }

  /** The value of a run of hex digits, most significant first. */
  function HexValue(s: string): nat
    requires forall k :: 0 <= k < |s| ==> IsHexDigit(s[k])
  {
    if s == [] then 0 else HexValue(s[..|s| - 1]) * 16 + HexDigitValue(s[|s| - 1])
  }

  /**
   * `parseInt(s, 16)`: leading white space skipped, one optional sign,
   * an optional `0x`/`0X`, then as many hex digits as there are; `NaN`
   * when there are none.
   */
  function ParseIntHex(s: string): JsNum {
    var t := SkipSpace(s);
    var negative := t != [] && t[0] == '-';
    var u := if t != [] && (t[0] == '-' || t[0] == '+') then t[1..] else t;
    var w := if |u| >= 2 && u[0] == '0' && (u[1] == 'x' || u[1] == 'X') then u[2..] else u;
    var n := HexRun(w);
    if n == 0 then NaN
    else
      var v := HexValue(w[..n]) as real;
      Finite(if negative then -v else v)
  }

  /** Two hex digits parse to their value, at most 255. */
  lemma ParseHexPair(a: char, b: char)
    requires IsHexDigit(a) && IsHexDigit(b)
    ensures ParseIntHex([a, b]) == Finite((HexDigitValue(a) * 16 + HexDigitValue(b)) as real)
    ensures HexDigitValue(a) * 16 + HexDigitValue(b) <= 255
  {
    var s := [a, b];
    assert !IsJsSpace(a);
    assert SkipSpace(s) == s;
    assert s[1..] == [b] && [b][1..] == [];
    assert HexRun(s) == 2;
    assert s[..2] == s && s[..1] == [a] && [a][..0] == [];
    assert HexValue(s) == HexValue([a]) * 16 + HexDigitValue(b);
  }

  // ---------------------------------------------------------------------
  // Colours

  /** `hexColor.split("").map((char) => char + char).join("")` */
  function Doubled(s: string): (d: string)
    ensures |d| == 2 * |s|
    ensures forall k :: 0 <= k < |s| ==> d[2 * k] == s[k] && d[2 * k + 1] == s[k]
  {
    if s == [] then [] else [s[0], s[0]] + Doubled(s[1..])
  }

  /** One leading `#` removed, as `hexColor.startsWith("#")` then `substring(1)` do. */
  function DropHash(s: string): string {
    if s != [] && s[0] == '#' then s[1..] else s
  }

  /**
   * `hexToRgbPercentages(hexColor)`: three channels, each a pair of hex
   * digits over 255; `Error` unless one leading `#` aside the length is 3 or 6.
   */
  function HexToRgbPercentages(hexColor: string): (r: Result<seq<JsNum>>)
    ensures r.Err? <==> |DropHash(hexColor)| != 3 && |DropHash(hexColor)| != 6
    ensures r.Err? ==> r.error == "Error"
    ensures r.Ok? ==> |r.value| == 3
  {
    var h := DropHash(hexColor);
    if |h| != 3 && |h| != 6 then Err("Error")
    else
      var full := if |h| == 3 then Doubled(h) else h;
      Ok(Channels(full))
  }

  /** The red, green and blue channels of a six-character colour. */
  function Channels(full: string): (c: seq<JsNum>)
    requires |full| == 6
    ensures |c| == 3
  {
    [Channel(full[0..2]), Channel(full[2..4]), Channel(full[4..6])]
  }

  function Channel(pair: string): JsNum {
    var v := ParseIntHex(pair);
    if v.Finite? then Finite(v.x / 255.0) else NaN
  }

  /** A three-digit colour is its six-digit form with every digit doubled: `#abc` is `#aabbcc`. */
  lemma ShortHex(h: string)
    requires |h| == 3
    ensures HexToRgbPercentages("#" + h) == HexToRgbPercentages("#" + Doubled(h))
  {
    assert DropHash("#" + h) == h;
    assert DropHash("#" + Doubled(h)) == Doubled(h);
  }

  /** On hex digits every channel is a pair of digits over 255, within `[0, 1]`. */
  lemma HexChannels(hexColor: string)
    requires |DropHash(hexColor)| == 6 || |DropHash(hexColor)| == 3
    requires forall k :: 0 <= k < |DropHash(hexColor)| ==> IsHexDigit(DropHash(hexColor)[k])
    ensures var r := HexToRgbPercentages(hexColor);
      r.Ok? && forall i :: 0 <= i < 3 ==> r.value[i].Finite? && 0.0 <= r.value[i].x <= 1.0
  {
    var h := DropHash(hexColor);
    var full := if |h| == 3 then Doubled(h) else h;
    if |h| == 3 {
      DoubledHex(h);
    }
    ChannelsRange(full);
  }

  lemma ChannelsRange(full: string)
    requires |full| == 6 && forall k :: 0 <= k < 6 ==> IsHexDigit(full[k])
    ensures forall i :: 0 <= i < 3 ==> Channels(full)[i].Finite? && 0.0 <= Channels(full)[i].x <= 1.0
  {
    HexPairChannel(full[0..2]);
    HexPairChannel(full[2..4]);
    HexPairChannel(full[4..6]);
  }

  lemma DoubledHex(h: string)
    requires |h| == 3 && forall k :: 0 <= k < 3 ==> IsHexDigit(h[k])
    ensures forall k :: 0 <= k < 6 ==> IsHexDigit(Doubled(h)[k])
  {
    var d := Doubled(h);
    assert d[0] == h[0] && d[1] == h[0];
    assert d[2] == h[1] && d[3] == h[1];
    assert d[4] == h[2] && d[5] == h[2];
  }

  lemma HexPairChannel(pair: string)
    requires |pair| == 2 && IsHexDigit(pair[0]) && IsHexDigit(pair[1])
    ensures Channel(pair).Finite? && 0.0 <= Channel(pair).x <= 1.0
  {
    ParseHexPair(pair[0], pair[1]);
    assert pair == [pair[0], pair[1]];
  }

  /** `endColor[i] + percentage * (startColor[i] - endColor[i])` */
  function BlendChannel(start: JsNum, end: JsNum, percentage: JsNum): JsNum {
    NumAdd(end, NumMul(percentage, NumSub(start, end)))
  }

  /** The colour `rgbOnScale` computes, channel by channel. */
  function Blend(startColor: seq<JsNum>, endColor: seq<JsNum>, percentage: JsNum): (c: seq<JsNum>)
    requires |startColor| >= 3 && |endColor| >= 3
    ensures |c| == 3
  {
    seq(3, i requires 0 <= i < 3 => BlendChannel(startColor[i], endColor[i], percentage))
  }

  /** `rgbOnScale(startColor, endColor, percentage)` */
  method RgbOnScale(startColor: seq<JsNum>, endColor: seq<JsNum>, percentage: JsNum) returns (result: seq<JsNum>)
    requires |startColor| >= 3 && |endColor| >= 3
    ensures result == Blend(startColor, endColor, percentage)
  {
    result := [];
    for i := 0 to 3
      invariant |result| == i
      invariant forall k :: 0 <= k < i ==> result[k] == BlendChannel(startColor[k], endColor[k], percentage)
    {
      result := result + [BlendChannel(startColor[i], endColor[i], percentage)];
    }
  }

  ghost predicate AllFinite(c: seq<JsNum>) {
    forall i :: 0 <= i < |c| ==> c[i].Finite?
  }

  /** Scale 0 gives the end colour and scale 1 the start colour. */
  lemma BlendEnds(startColor: seq<JsNum>, endColor: seq<JsNum>)
    requires |startColor| == 3 && |endColor| == 3 && AllFinite(startColor) && AllFinite(endColor)
    ensures Blend(startColor, endColor, Finite(0.0)) == endColor
    ensures Blend(startColor, endColor, Finite(1.0)) == startColor
  {
  }

  /** A scale within `[0, 1]` keeps every channel between the two colours' values. */
  lemma BlendBetween(s: real, e: real, p: real)
    requires 0.0 <= p <= 1.0
    ensures var b := BlendChannel(Finite(s), Finite(e), Finite(p));
      b.Finite? && (if s <= e then s <= b.x <= e else e <= b.x <= s)
  {
    var d := s - e;
    var q := p * d;
    ScaledBetween(d, p);
    assert BlendChannel(Finite(s), Finite(e), Finite(p)) == Finite(e + q);
  }

  /** A fraction `p` of `d` lies between 0 and `d`. */
  lemma ScaledBetween(d: real, p: real)
    requires 0.0 <= p <= 1.0
    ensures d <= 0.0 ==> d <= p * d <= 0.0
    ensures d >= 0.0 ==> 0.0 <= p * d <= d
  {
    assert d - p * d == (1.0 - p) * d;
    if d <= 0.0 {
      assert (1.0 - p) * d <= 0.0;
      assert p * d <= 0.0;
    } else {
      assert (1.0 - p) * d >= 0.0;
      assert p * d >= 0.0;
    }
  }

  /**
   * `Item.color` for a sprite: `"immature,mature"` (extra pieces ignored)
   * or one colour for both, blended by the item's maturity.
   */
  function ItemColor(sprite: string, maturity: real): (r: Result<seq<JsNum>>)
    ensures r.Ok? ==> |r.value| == 3
    ensures r.Err? ==> r.error == "Error"
    ensures ',' !in sprite ==> r == HexToRgbPercentages(sprite)
  {
    OneColorSplit(sprite);
    var parts := Split(sprite, ',');
    var immature := parts[0];
    var mature := if |parts| >= 2 then parts[1] else parts[0];
    match HexToRgbPercentages(immature)
      case Err(e) => Err(e)
      case Ok(s) =>
        match HexToRgbPercentages(mature)
          case Err(e) => Err(e)
          case Ok(m) => BlendSame(s, Finite(maturity)); Ok(Blend(s, m, Finite(maturity)))
  }

  /** A sprite without a comma is one piece. */
  lemma OneColorSplit(sprite: string)
    ensures ',' !in sprite ==> Split(sprite, ',') == [sprite]
  {
    if ',' !in sprite {
      JoinSplit([sprite], ',');
    }
  }

  /** Blending a colour with itself gives that colour at any finite percentage. */
  lemma BlendSame(c: seq<JsNum>, percentage: JsNum)
    requires |c| == 3 && percentage.Finite?
    ensures Blend(c, c, percentage) == c
  {
  }

  /** A fully mature item shows its immature colour, because the blend runs from end to start. */
  lemma MatureShowsImmature(immature: string, mature: string)
    requires ',' !in immature && ',' !in mature
    requires |DropHash(immature)| == 6 && forall k :: 0 <= k < 6 ==> IsHexDigit(DropHash(immature)[k])
    requires |DropHash(mature)| == 6 && forall k :: 0 <= k < 6 ==> IsHexDigit(DropHash(mature)[k])
    ensures ItemColor(immature + "," + mature, 1.0) == HexToRgbPercentages(immature)
  {
    assert JoinWith([immature, mature], ',') == immature + "," + mature;
    JoinSplit([immature, mature], ',');
    HexChannels(immature);
    HexChannels(mature);
    var s := HexToRgbPercentages(immature).value;
    var m := HexToRgbPercentages(mature).value;
    BlendEnds(s, m);
  }
}
