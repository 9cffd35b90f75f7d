/** Strings of the client link: dictionary tokens and single bytes. */
module ClientStrings {
  import opened Words
  import opened LinkStreams
  import opened ClientMoves
  import H = HuffmanRoundTrip

  const ESCAPE: u8 := 0xff

  /** The proxy's own phrases, the players' names, and common phrases. A name may
      be empty, and is then unknown. */
  datatype Dictionary = Dictionary(proxy: seq<seq<u8>>, names: seq<seq<u8>>, common: seq<seq<u8>>) {
    predicate WellFormed() {
      |proxy| <= 32 && |names| == 32 && |common| == 192
    }

    /** No text holds the byte that ends strings. */
    predicate NulFree() {
      && (forall i :: 0 <= i < |proxy| ==> 0 !in proxy[i])
      && (forall i :: 0 <= i < |names| ==> 0 !in names[i])
      && (forall i :: 0 <= i < |common| ==> 0 !in common[i])
    }
  }

  /** The text of a token, if it has any. */
  function TokenText(d: Dictionary, token: u8): Option<seq<u8>>
    requires d.WellFormed()
  {
    if token < 32 then if d.names[token] != [] then Some(d.names[token]) else None
    else if token - 32 < |d.proxy| then Some(d.proxy[token - 32])
    else if token >= 64 then Some(d.common[token - 64])
    else None
  }

  /** Entry `i` can stand for the start of the data. */
  predicate Matches(data: seq<u8>, texts: seq<seq<u8>>, i: nat)
    requires i < |texts|
  {
    texts[i] != [] && texts[i] <= data
  }

  /** The first of the longest matches among the first `count` entries. */
  predicate IsLongest(data: seq<u8>, texts: seq<seq<u8>>, count: nat, best: Option<nat>)
    requires count <= |texts|
  {
    match best
    case None => forall i :: 0 <= i < count ==> !Matches(data, texts, i)
    case Some(b) =>
      && b < count && Matches(data, texts, b)
      && (forall i :: 0 <= i < count && Matches(data, texts, i) ==> |texts[i]| <= |texts[b]|)
      && (forall i :: 0 <= i < b && Matches(data, texts, i) ==> |texts[i]| < |texts[b]|)
  }

  function Longest(data: seq<u8>, texts: seq<seq<u8>>, count: nat): (best: Option<nat>)
    requires count <= |texts|
    ensures IsLongest(data, texts, count, best)
  {
    if count == 0 then None
    else
      var earlier := Longest(data, texts, count - 1);
      if Matches(data, texts, count - 1) && (earlier.None? || |texts[earlier.value]| < |texts[count - 1]|)
      then Some(count - 1) else earlier
  }

  /** An entry matches whatever starts with it, be it nothing more. */
  lemma MatchesStart(texts: seq<seq<u8>>, i: nat, rest: seq<u8>)
    requires i < |texts| && texts[i] != []
    ensures Matches(texts[i] + rest, texts, i)
  {
  }

  /** There is only one first of the longest matches. */
  lemma LongestIsUnique(data: seq<u8>, texts: seq<seq<u8>>, count: nat, one: Option<nat>, other: Option<nat>)
    requires count <= |texts| && IsLongest(data, texts, count, one) && IsLongest(data, texts, count, other)
    ensures one == other
  {
  }

  /** The search loop of the encoder. */
  method LongestMatch(data: seq<u8>, texts: seq<seq<u8>>) returns (best: Option<nat>)
    ensures best == Longest(data, texts, |texts|)
  {
    best := None;
    var size: int := -1;
    for i := 0 to |texts|
      invariant best == Longest(data, texts, i)
      invariant size == (if best.Some? then |texts[best.value]| else -1)
    {
      if texts[i] != [] && |texts[i]| > size && texts[i] <= data {
        size := |texts[i]|;
        best := Some(i);
      }
    }
  }

  datatype Match = Match(token: u8, text: seq<u8>)

  /** The first dictionary with a match decides, in the order of the source. */
  function MatchOf(d: Dictionary, data: seq<u8>): Option<Match>
    requires d.WellFormed()
  {
    var proxy := Longest(data, d.proxy, |d.proxy|);
    var name := Longest(data, d.names, |d.names|);
    var common := Longest(data, d.common, |d.common|);
    if proxy.Some? then Some(Match(32 + proxy.value, d.proxy[proxy.value]))
    else if name.Some? then Some(Match(name.value, d.names[name.value]))
    else if common.Some? then Some(Match(64 + common.value, d.common[common.value]))
    else None
  }

  method MatchClientString(d: Dictionary, data: seq<u8>) returns (m: Option<Match>)
    requires d.WellFormed()
    ensures m == MatchOf(d, data)
  {
    var proxy := LongestMatch(data, d.proxy);
    if proxy.Some? {
      return Some(Match(32 + proxy.value, d.proxy[proxy.value]));
    }
    var name := LongestMatch(data, d.names);
    if name.Some? {
      return Some(Match(name.value, d.names[name.value]));
    }
    var common := LongestMatch(data, d.common);
    if common.Some? {
      return Some(Match(64 + common.value, d.common[common.value]));
    }
    m := None;
  }

  predicate AnyMatch(data: seq<u8>, texts: seq<seq<u8>>) {
    exists i: nat :: i < |texts| && Matches(data, texts, i)
  }

  /** The proxy's phrases come before the names, and the names before the common
      phrases, however long their matches are; within one of them the first of the
      longest matches is taken. */
  lemma FirstDictionaryDecides(d: Dictionary, data: seq<u8>)
    requires d.WellFormed()
    ensures var m := MatchOf(d, data);
            if AnyMatch(data, d.proxy) then
              m.Some? && 32 <= m.value.token < 64 && m.value.token - 32 < |d.proxy|
                && IsLongest(data, d.proxy, |d.proxy|, Some(m.value.token - 32))
            else if AnyMatch(data, d.names) then
              m.Some? && m.value.token < 32 && IsLongest(data, d.names, 32, Some(m.value.token))
            else if AnyMatch(data, d.common) then
              m.Some? && 64 <= m.value.token && IsLongest(data, d.common, 192, Some(m.value.token - 64))
            else m.None?
  {
  }

  /** A matched token stands for a nonempty start of the data, at the decoder. */
  lemma MatchFits(d: Dictionary, data: seq<u8>)
    requires d.WellFormed() && MatchOf(d, data).Some?
    ensures var m := MatchOf(d, data).value;
            m.text != [] && m.text <= data && TokenText(d, m.token) == Some(m.text)
  {
  }

  /** The items of a string; none when a byte looks like the escape and nothing in
      the dictionaries covers it. */
  function StringItems(d: Dictionary, data: seq<u8>): Option<Items>
    requires d.WellFormed()
    decreases |data|
  {
    if data == [] then Some([])
    else
      match MatchOf(d, data)
      case Some(m) =>
        MatchFits(d, data);
        (match StringItems(d, data[|m.text|..])
         case None => None
         case Some(rest) => Some([H.Coded(STRING_BYTE, ESCAPE), H.Coded(STRING_TOKEN, m.token)] + rest))
      case None =>
        if data[0] == ESCAPE then None
        else
          match StringItems(d, data[1..])
          case None => None
          case Some(rest) => Some([H.Coded(STRING_BYTE, data[0])] + rest)
  }

  /** Reads up to the byte that ends the string, after what was already read. */
  function ParseString(d: Dictionary, items: Items, done: seq<u8>): (p: Parse<seq<u8>>)
    requires d.WellFormed()
    ensures p.Shorter(items)
    decreases |items|
  {
    match TakeSymbol(items, STRING_BYTE)
    case Lost => Lost
    case Parsed(value, rest) =>
      if value != ESCAPE then
        if value == 0 then Parsed(done + [value], rest) else ParseString(d, rest, done + [value])
      else
        match TakeSymbol(rest, STRING_TOKEN)
        case Lost => Lost
        case Parsed(token, rest) =>
          match TokenText(d, token)
          case None => Bad
          case Some(text) => ParseString(d, rest, done + text)
  }

  /** Ends with the only zero byte in it. */
  predicate Terminated(data: seq<u8>) {
    data != [] && data[|data| - 1] == 0 && 0 !in data[..|data| - 1]
  }

  /** A token's text never reaches the end of a terminated string. */
  lemma MatchLeavesEnd(d: Dictionary, data: seq<u8>)
    requires d.WellFormed() && d.NulFree() && Terminated(data) && MatchOf(d, data).Some?
    ensures var m := MatchOf(d, data).value;
            0 < |m.text| < |data| && m.text <= data && TokenText(d, m.token) == Some(m.text)
            && Terminated(data[|m.text|..])
  {
    MatchFits(d, data);
    var m := MatchOf(d, data).value;
    assert 0 !in m.text;
    assert data[|data| - 1] in data && (|m.text| == |data| ==> m.text == data);
    var tail := data[|m.text|..];
    assert tail[..|tail| - 1] == data[..|data| - 1][|m.text|..];
  }

  lemma TwoSymbols(first: H.Item, second: H.Item, later: Items)
    requires first.Coded? && second.Coded?
    ensures var items := [first, second] + later;
            && TakeSymbol(items, first.model) == Parsed(first.symbol, [second] + later)
            && TakeSymbol([second] + later, second.model) == Parsed(second.symbol, later)
  {
    assert ([first, second] + later)[1..] == [second] + later;
    assert ([second] + later)[1..] == later;
  }

  /** An encodable string comes back whole, at a decoder with equal dictionaries. */
  lemma {:induction false} StringRestored(d: Dictionary, data: seq<u8>, done: seq<u8>, rest: Items)
    requires d.WellFormed() && d.NulFree() && Terminated(data) && StringItems(d, data).Some?
    ensures ParseString(d, StringItems(d, data).value + rest, done) == Parsed(done + data, rest)
    decreases |data|
  {
    LastByte(data);
    hide MatchOf, TokenText, Terminated;
    if MatchOf(d, data).Some? {
      var m := MatchOf(d, data).value;
      MatchLeavesEnd(d, data);
      var tail := data[|m.text|..];
      var later := StringItems(d, tail).value + rest;
      var token := [H.Coded(STRING_BYTE, ESCAPE), H.Coded(STRING_TOKEN, m.token)];
      Regroup(token, StringItems(d, tail).value, rest);
      assert StringItems(d, data).value + rest == token + later;
      TwoSymbols(H.Coded(STRING_BYTE, ESCAPE), H.Coded(STRING_TOKEN, m.token), later);
      StringRestored(d, tail, done + m.text, rest);
      Regroup(done, m.text, tail);
      assert m.text + tail == data;
    } else {
      var later := StringItems(d, data[1..]).value + rest;
      Regroup([H.Coded(STRING_BYTE, data[0])], StringItems(d, data[1..]).value, rest);
      assert StringItems(d, data).value + rest == [H.Coded(STRING_BYTE, data[0])] + later;
      SymbolRestored(STRING_BYTE, data[0], later);
      if data[0] == 0 {
        assert data == [data[0]];
        assert later == rest;
      } else {
        StringRestored(d, data[1..], done + [data[0]], rest);
        Regroup(done, [data[0]], data[1..]);
        assert [data[0]] + data[1..] == data;
      }
    }
  }

  /** The first byte is the end exactly when it is the only one. */
  lemma LastByte(data: seq<u8>)
    requires Terminated(data)
    ensures data != [] && (data[0] == 0 <==> |data| == 1)
    ensures data[0] != 0 ==> Terminated(data[1..])
  {
    if data[0] != 0 {
      assert data[1..][..|data| - 2] == data[..|data| - 1][1..];
    }
  }

  /** Literal strings are sent byte by byte. */
  function LiteralItems(data: seq<u8>): (items: Items)
    ensures |items| == |data|
  {
    seq(|data|, i requires 0 <= i < |data| => H.Coded(STRING_BYTE, data[i]))
  }

  function ParseLiteral(items: Items, done: seq<u8>): (p: Parse<seq<u8>>)
    ensures p.Shorter(items) && !p.Bad?
    decreases |items|
  {
    match TakeSymbol(items, STRING_BYTE)
    case Lost => Lost
    case Parsed(value, rest) =>
      if value == 0 then Parsed(done + [value], rest) else ParseLiteral(rest, done + [value])
  }

  lemma {:induction false} LiteralRestored(data: seq<u8>, done: seq<u8>, rest: Items)
    requires Terminated(data)
    ensures ParseLiteral(LiteralItems(data) + rest, done) == Parsed(done + data, rest)
    decreases |data|
  {
    LastByte(data);
    var later := LiteralItems(data[1..]) + rest;
    assert LiteralItems(data) + rest == [H.Coded(STRING_BYTE, data[0])] + later;
    SymbolRestored(STRING_BYTE, data[0], later);
    if data[0] == 0 {
      assert later == rest;
      assert data == [data[0]];
    } else {
      LiteralRestored(data[1..], done + [data[0]], rest);
      assert done + [data[0]] + data[1..] == done + data;
    }
  }
}
