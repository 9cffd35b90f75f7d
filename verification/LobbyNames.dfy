/** Names of lobby players: cleaned, and made distinct by a number in front. */
module LobbyNames {
  import opened Words

  type Name = seq<u8>

  const NAME_LENGTH: nat := 31
  const MAX_PLAYERS: nat := 32

  /** Bit 7 only selects a colour. */
  function Plain(b: u8): u8 {
    b % 0x80
  }

  const SPACE: u8 := 32

  /** Not a control character, backslash, quote or semicolon. */
  predicate Allowed(b: u8) {
    32 <= Plain(b) && Plain(b) != 127 && Plain(b) != 92 && Plain(b) != 34 && Plain(b) != 59
  }

  /** The first allowed bytes, as many as there is room for. */
  function Kept(name: Name, room: nat): (kept: Name)
    ensures |kept| <= room && forall b :: b in kept ==> Allowed(b)
  {
    if name == [] || room == 0 then []
    else if Allowed(name[0]) then [name[0]] + Kept(name[1..], room - 1)
    else Kept(name[1..], room)
  }

  function TrimLeft(name: Name): (trimmed: Name)
    ensures |trimmed| <= |name| && forall b :: b in trimmed ==> b in name
    ensures trimmed != [] ==> Plain(trimmed[0]) != SPACE
  {
    if name != [] && Plain(name[0]) == SPACE then TrimLeft(name[1..]) else name
  }

  function TrimRight(name: Name): (trimmed: Name)
    ensures |trimmed| <= |name| && forall b :: b in trimmed ==> b in name
    ensures trimmed != [] ==> trimmed[0] == name[0] && Plain(trimmed[|trimmed| - 1]) != SPACE
  {
    if name != [] && Plain(name[|name| - 1]) == SPACE then TrimRight(name[..|name| - 1]) else name
  }

  const UNNAMED: Name := [117, 110, 110, 97, 109, 101, 100]

  function Clean(name: Name): Name {
    var trimmed := TrimRight(TrimLeft(Kept(name, NAME_LENGTH)));
    if trimmed == [] then UNNAMED else trimmed
  }

  /** What a lobby name looks like. */
  predicate IsClean(name: Name) {
    && 1 <= |name| <= NAME_LENGTH && (forall b :: b in name ==> Allowed(b))
    && Plain(name[0]) != SPACE && Plain(name[|name| - 1]) != SPACE
  }

  lemma {:induction false} KeptWhole(name: Name, room: nat)
    requires |name| <= room && forall b :: b in name ==> Allowed(b)
    ensures Kept(name, room) == name
  {
    if name != [] {
      KeptWhole(name[1..], room - 1);
      assert [name[0]] + name[1..] == name;
    }
  }

  lemma TrimmedIsClean(kept: Name)
    requires |kept| <= NAME_LENGTH && forall b :: b in kept ==> Allowed(b)
    ensures var trimmed := TrimRight(TrimLeft(kept));
            trimmed != [] ==> IsClean(trimmed)
  {
    hide Allowed, Plain;
  }

  lemma UnnamedIsClean()
    ensures IsClean(UNNAMED)
  {
    assert UNNAMED[0] == 117 && UNNAMED[6] == 100;
    LetterAllowed(117);
    LetterAllowed(110);
    LetterAllowed(97);
    LetterAllowed(109);
    LetterAllowed(101);
    LetterAllowed(100);
    hide Allowed, Plain;
  }

  lemma LetterAllowed(b: u8)
    requires 97 <= b <= 122
    ensures Allowed(b) && Plain(b) != SPACE
  {
  }

  /** Cleaning always gives a clean name, and leaves exactly the clean ones as they
      are. */
  lemma CleanIsClean(name: Name)
    ensures IsClean(Clean(name))
    ensures Clean(name) == name <==> IsClean(name)
  {
    hide Allowed, Plain, Kept;
    UnnamedIsClean();
    TrimmedIsClean(Kept(name, NAME_LENGTH));
    if IsClean(name) {
      KeptWhole(name, NAME_LENGTH);
      assert TrimLeft(name) == name && TrimRight(name) == name;
    }
  }

  /** All allowed bytes, in their order. */
  function AllowedOf(name: Name): Name {
    if name == [] then []
    else AllowedOf(name[..|name| - 1]) + (if Allowed(name[|name| - 1]) then [name[|name| - 1]] else [])
  }

  lemma {:induction false} AllowedFirst(first: u8, name: Name)
    ensures AllowedOf([first] + name) == (if Allowed(first) then [first] else []) + AllowedOf(name)
  {
    hide Allowed;
    if name == [] {
      assert [first] + name == [first] && [first][..0] == [];
    } else {
      var n := |name| - 1;
      assert ([first] + name)[..n + 1] == [first] + name[..n];
      AllowedFirst(first, name[..n]);
    }
  }

  /** The allowed bytes of a part of the name are kept: of all of it, unless they fill
      the room. */
  lemma {:induction false} KeptIsAllowed(name: Name, room: nat) returns (part: nat)
    ensures part <= |name| && Kept(name, room) == AllowedOf(name[..part])
    ensures part == |name| || |Kept(name, room)| == room
  {
    hide Allowed;
    if name == [] || room == 0 {
      part := 0;
    } else {
      var later := KeptIsAllowed(name[1..], if Allowed(name[0]) then room - 1 else room);
      part := later + 1;
      assert name[..part] == [name[0]] + name[1..][..later];
      AllowedFirst(name[0], name[1..][..later]);
    }
  }

  predicate Blank(name: Name) {
    forall i :: 0 <= i < |name| ==> Plain(name[i]) == SPACE
  }

  lemma {:induction false} TrimmedLeft(name: Name) returns (left: Name)
    ensures Blank(left) && name == left + TrimLeft(name)
  {
    hide Plain;
    left := [];
    if name != [] && Plain(name[0]) == SPACE {
      var more := TrimmedLeft(name[1..]);
      left := [name[0]] + more;
      assert name == [name[0]] + name[1..];
    }
  }

  lemma {:induction false} TrimmedRight(name: Name) returns (right: Name)
    ensures Blank(right) && name == TrimRight(name) + right
  {
    hide Plain;
    right := [];
    if name != [] && Plain(name[|name| - 1]) == SPACE {
      var n := |name| - 1;
      var more := TrimmedRight(name[..n]);
      right := more + [name[n]];
      assert name == name[..n] + [name[n]];
    }
  }

  /** What cleaning does: the allowed bytes, up to 31 of them, without the spaces around
      them; a name of which nothing is left is "unnamed". */
  lemma CleanedFrom(name: Name) returns (part: nat, left: Name, right: Name)
    ensures part <= |name| && Blank(left) && Blank(right)
    ensures part == |name| || |AllowedOf(name[..part])| == 31
    ensures if Blank(AllowedOf(name[..part])) then Clean(name) == UNNAMED
            else AllowedOf(name[..part]) == left + Clean(name) + right
  {
    hide Plain, Allowed, AllowedOf;
    part := KeptIsAllowed(name, NAME_LENGTH);
    var kept := Kept(name, NAME_LENGTH);
    left := TrimmedLeft(kept);
    right := TrimmedRight(TrimLeft(kept));
    var trimmed := TrimRight(TrimLeft(kept));
    assert kept == left + trimmed + right;
    assert trimmed != [] ==> trimmed[0] == kept[|left|];
  }

  /** A name is free of control characters, backslashes, quotes and semicolons in either
      colour, and every other byte but a space makes a name by itself. */
  lemma OnlyTheseAreDropped(b: u8)
    ensures 33 <= b % 128 <= 126 && b % 128 !in {34, 59, 92} ==> Clean([b]) == [b]
    ensures b % 128 <= 32 || b % 128 == 127 || b % 128 in {34, 59, 92} ==> Clean([b]) == UNNAMED
  {
    assert [b][1..] == [] && [b][..0] == [];
    var kept := Kept([b], NAME_LENGTH);
    assert Kept([b][1..], 30) == [] && Kept([b][1..], 31) == [];
    assert kept == (if Allowed(b) then [b] else []);
  }

  method KeepAllowed(name: Name) returns (result: Name)
    ensures result == Kept(name, NAME_LENGTH)
  {
    hide Allowed, Kept;
    result := [];
    var i: nat := 0;
    assert name[0..] == name;
    while i < |name| && |result| < NAME_LENGTH
      invariant i <= |name| && |result| <= NAME_LENGTH
      invariant result + Kept(name[i..], NAME_LENGTH - |result|) == Kept(name, NAME_LENGTH)
    {
      var room := NAME_LENGTH - |result|;
      KeptHead(name[i..], room);
      assert name[i..][1..] == name[i + 1..];
      if Allowed(name[i]) {
        Regroup(result, [name[i]], Kept(name[i + 1..], room - 1));
        result := result + [name[i]];
      }
      i := i + 1;
    }
    NoneKept(name[i..], NAME_LENGTH - |result|);
  }

  lemma KeptHead(name: Name, room: nat)
    requires name != [] && room > 0
    ensures Kept(name, room)
              == (if Allowed(name[0]) then [name[0]] + Kept(name[1..], room - 1) else Kept(name[1..], room))
  {
    hide Allowed;
  }

  lemma NoneKept(name: Name, room: nat)
    requires name == [] || room == 0
    ensures Kept(name, room) == []
  {
  }

  method CleanLobbyName(name: Name) returns (result: Name)
    ensures result == Clean(name)
  {
    hide Kept, Plain;
    result := KeepAllowed(name);
    ghost var kept := result;
    while |result| > 0 && Plain(result[0]) == SPACE
      invariant TrimLeft(result) == TrimLeft(kept)
      decreases |result|
    {
      result := result[1..];
    }
    ghost var left := result;
    while |result| > 0 && Plain(result[|result| - 1]) == SPACE
      invariant TrimRight(result) == TrimRight(left)
      decreases |result|
    {
      result := result[..|result| - 1];
    }
    if result == [] {
      result := UNNAMED;
    }
  }

  /** Names that differ in case or colour only have equal keys. */
  function KeyByte(b: u8): u8 {
    if 65 <= Plain(b) <= 90 then Plain(b) + 32 else Plain(b)
  }

  function Key(name: Name): (key: Name)
    ensures |key| == |name|
  {
    seq(|name|, i requires 0 <= i < |name| => KeyByte(name[i]))
  }

  /** Apart from the colour the same byte, or the same letter in another case. */
  predicate Alike(a: u8, b: u8) {
    || a % 128 == b % 128
    || (65 <= a % 128 <= 90 && b % 128 == a % 128 + 32)
    || (65 <= b % 128 <= 90 && a % 128 == b % 128 + 32)
  }

  lemma KeyByteAlike(a: u8, b: u8)
    ensures KeyByte(a) == KeyByte(b) <==> Alike(a, b)
  {
  }

  /** Two names count as the same exactly when they differ in case and colour only. */
  lemma KeysAlike(one: Name, other: Name)
    ensures Key(one) == Key(other) <==> |one| == |other| && forall i :: 0 <= i < |one| ==> Alike(one[i], other[i])
  {
    hide KeyByte, Alike;
    forall i | 0 <= i < |one| && i < |other|
      ensures Key(one)[i] == Key(other)[i] <==> Alike(one[i], other[i])
    {
      KeyByteAlike(one[i], other[i]);
    }
    if |one| == |other| && forall i :: 0 <= i < |one| ==> Alike(one[i], other[i]) {
      assert Key(one) == Key(other);
    }
  }

  function Decimal(n: nat): (digits: Name)
    ensures forall i :: 0 <= i < |digits| ==> 48 <= digits[i] <= 57
    ensures n < 100 ==> |digits| <= 2
  {
    if n < 10 then [48 + n] else Decimal(n / 10) + [48 + n % 10]
  }

  function DecimalValue(digits: Name): int {
    if digits == [] then 0 else DecimalValue(digits[..|digits| - 1]) * 10 + digits[|digits| - 1] - 48
  }

  lemma {:induction false} ValueOfDecimal(n: nat)
    ensures DecimalValue(Decimal(n)) == n
  {
    if n >= 10 {
      ValueOfDecimal(n / 10);
      assert Decimal(n)[..|Decimal(n)| - 1] == Decimal(n / 10);
    }
  }

  /** The name with a number in parentheses, cut to the length of a name. */
  function Numbered(base: Name, n: nat): (name: Name)
    requires n < 100
    ensures |name| <= NAME_LENGTH || |name| <= |base|
  {
    var prefix := [40] + Decimal(n) + [41];
    prefix + base[..Least(|base|, NAME_LENGTH - |prefix|)]
  }

  function Least(a: int, b: int): int {
    if a < b then a else b
  }

  /** The key of a numbered name begins with the number. */
  lemma NumberedKey(base: Name, n: nat)
    requires n < 100
    ensures var key, digits := Key(Numbered(base, n)), Decimal(n);
            && |key| >= |digits| + 2 && key[|digits| + 1] == 41
            && (forall i :: 0 <= i < |digits| ==> key[i + 1] == digits[i])
  {
    var name := Numbered(base, n);
    assert name[|Decimal(n)| + 1] == 41;
    assert forall i :: 0 <= i < |Decimal(n)| ==> name[i + 1] == Decimal(n)[i];
  }

  /** The first closing parenthesis from `i` on. */
  function Closing(key: Name, i: nat): (at: nat)
    requires i <= |key|
    ensures i <= at <= |key| && (forall k :: i <= k < at ==> key[k] != 41) && (at < |key| ==> key[at] == 41)
    decreases |key| - i
  {
    if i < |key| && key[i] != 41 then Closing(key, i + 1) else i
  }

  lemma NumberEnds(key: Name, digits: Name)
    requires |key| >= |digits| + 2 && key[|digits| + 1] == 41
    requires forall i :: 0 <= i < |digits| ==> key[i + 1] == digits[i] && 48 <= digits[i] <= 57
    ensures Closing(key, 1) == |digits| + 1
  {
    assert forall k :: 1 <= k < |digits| + 1 ==> key[k] == digits[k - 1];
  }

  /** Different numbers give different keys. */
  lemma NumberedKeysDiffer(base: Name, n: nat, m: nat)
    requires n < 100 && m < 100 && Key(Numbered(base, n)) == Key(Numbered(base, m))
    ensures n == m
  {
    NumberedKey(base, n);
    NumberedKey(base, m);
    var key, a, b := Key(Numbered(base, n)), Decimal(n), Decimal(m);
    hide Decimal, Numbered, Key;
    NumberEnds(key, a);
    NumberEnds(key, b);
    assert forall i :: 0 <= i < |a| ==> a[i] == key[i + 1] == b[i];
    assert a == b;
    ValueOfDecimal(n);
    ValueOfDecimal(m);
  }

  /** Keys of the numbered names below `n`. */
  ghost function KeysBelow(base: Name, n: nat): set<Name>
    requires 2 <= n <= 100
  {
    if n == 2 then {} else KeysBelow(base, n - 1) + {Key(Numbered(base, n - 1))}
  }

  lemma {:induction false} KeysAreMany(base: Name, n: nat)
    requires 2 <= n <= 100
    ensures |KeysBelow(base, n)| == n - 2
    ensures forall key :: key in KeysBelow(base, n) ==> exists m :: 2 <= m < n && key == Key(Numbered(base, m))
  {
    if n > 2 {
      KeysAreMany(base, n - 1);
      var key := Key(Numbered(base, n - 1));
      if key in KeysBelow(base, n - 1) {
        var m :| 2 <= m < n - 1 && key == Key(Numbered(base, m));
        NumberedKeysDiffer(base, m, n - 1);
      }
    }
  }

  /** If all numbers below `n` are taken, there are that many taken keys. */
  lemma AllTaken(base: Name, n: nat, used: set<Name>)
    requires 2 <= n <= 100 && forall m :: 2 <= m < n ==> Key(Numbered(base, m)) in used
    ensures n - 2 <= |used|
  {
    KeysAreMany(base, n);
    var keys := KeysBelow(base, n);
    assert keys <= used;
    SubsetSize(keys, used);
  }

  datatype Player = Player(name: Name, userID: u32)

  const NOBODY: Player := Player([], 0)

  function NoPlayers(): (p: seq<Player>)
    ensures |p| == MAX_PLAYERS && forall i :: 0 <= i < MAX_PLAYERS ==> p[i] == NOBODY
  {
    seq(MAX_PLAYERS, _ => NOBODY)
  }

  type Players = p: seq<Player> | |p| == MAX_PLAYERS witness NoPlayers()

  /** Somebody among the players has this key. */
  predicate Taken(players: Players, key: Name) {
    exists i :: 0 <= i < MAX_PLAYERS && players[i].userID != 0 && Key(players[i].name) == key
  }

  method UsedKeys(players: Players) returns (used: set<Name>)
    ensures |used| <= MAX_PLAYERS && forall key :: key in used <==> Taken(players, key)
  {
    hide Key;
    used := {};
    for i := 0 to MAX_PLAYERS
      invariant |used| <= i
      invariant forall key :: key in used <==>
                  exists k :: 0 <= k < i && players[k].userID != 0 && Key(players[k].name) == key
    {
      if players[i].userID != 0 {
        used := used + {Key(players[i].name)};
      }
    }
  }

  /** The name that a client gets who asks for `name`: cleaned if that is free, and
      otherwise with the first number that makes it so. */
  ghost predicate IsGiven(name: Name, players: Players, unique: Name) {
    && !Taken(players, Key(unique))
    && if !Taken(players, Key(Clean(name))) then unique == Clean(name)
       else exists n :: 2 <= n <= MAX_PLAYERS + 2 && IsFirstFree(Clean(name), players, unique, n)
  }

  ghost predicate IsFirstFree(base: Name, players: Players, unique: Name, n: nat)
    requires n < 100
  {
    unique == Numbered(base, n) && forall m :: 2 <= m < n ==> Taken(players, Key(Numbered(base, m)))
  }

  /** No other name will do. */
  lemma GivenOnce(name: Name, players: Players, one: Name, other: Name)
    requires IsGiven(name, players, one) && IsGiven(name, players, other)
    ensures one == other
  {
    hide Key, Clean, Numbered, Taken;
    if Taken(players, Key(Clean(name))) {
      var n :| 2 <= n <= MAX_PLAYERS + 2 && IsFirstFree(Clean(name), players, one, n);
      var m :| 2 <= m <= MAX_PLAYERS + 2 && IsFirstFree(Clean(name), players, other, m);
      assert n == m;
    }
  }

  /** The cleaned name if its key is free, and otherwise the first numbered name
      whose key is. There always is one: at most 32 keys are taken. */
  method UniqueLobbyName(name: Name, players: Players) returns (unique: Name, ghost number: nat)
    ensures !Taken(players, Key(unique)) && 1 <= |unique| <= NAME_LENGTH
    ensures number == 0 <==> !Taken(players, Key(Clean(name)))
    ensures number == 0 ==> unique == Clean(name)
    ensures number != 0 ==>
              && 2 <= number <= MAX_PLAYERS + 2 && unique == Numbered(Clean(name), number)
              && forall m :: 2 <= m < number ==> Taken(players, Key(Numbered(Clean(name), m)))
    ensures IsGiven(name, players, unique)
  {
    hide Key, Numbered;
    CleanIsClean(name);
    var base := CleanLobbyName(name);
    var used := UsedKeys(players);
    unique, number := base, 0;
    var n: nat := 2;
    while Key(unique) in used
      invariant 2 <= n <= MAX_PLAYERS + 3 && 1 <= |unique| <= NAME_LENGTH
      invariant forall m :: 2 <= m < n - 1 ==> Key(Numbered(base, m)) in used
      invariant if n == 2 then unique == base && number == 0
                else number == n - 1 && unique == Numbered(base, n - 1) && Key(base) in used
      decreases MAX_PLAYERS + 3 - n
    {
      if n > 2 {
        AllTaken(base, n, used);
      }
      unique, number := Numbered(base, n), n;
      NumberedLength(base, n);
      n := n + 1;
    }
    if number != 0 {
      assert IsFirstFree(base, players, unique, number);
    }
  }

  /** Thirty-one letters, but for a space after the 27th. */
  function Spaced(): (name: Name)
    ensures |name| == NAME_LENGTH
  {
    seq(NAME_LENGTH, i requires 0 <= i < NAME_LENGTH => if i == 27 then SPACE else 97)
  }

  lemma SpacedIsCut()
    ensures IsClean(Spaced()) && Clean(Spaced()) == Spaced()
    ensures |Numbered(Spaced(), 2)| == NAME_LENGTH && Plain(Numbered(Spaced(), 2)[30]) == SPACE
    ensures !IsClean(Numbered(Spaced(), 2)) && Key(Numbered(Spaced(), 2)) != Key(Spaced())
  {
    hide Clean;
    var numbered := Numbered(Spaced(), 2);
    assert Decimal(2) == [50];
    assert numbered == [40, 50, 41] + Spaced()[..28];
    assert Key(numbered)[0] == 40 && Key(Spaced())[0] == 97;
    CleanIsClean(Spaced());
  }

  /** The second player of that name gets one that ends with a space. */
  method SpaceAtEnd() returns (unique: Name)
    ensures Clean(Spaced()) == Spaced() && unique == Numbered(Spaced(), 2) && !IsClean(unique)
  {
    SpacedIsCut();
    hide Key, Numbered, Clean, IsClean, Spaced;
    var players := NoPlayers()[0 := Player(Spaced(), 1)];
    ghost var number;
    unique, number := UniqueLobbyName(Spaced(), players);
    assert Taken(players, Key(Spaced())) by {
      assert players[0].userID != 0;
    }
    assert !Taken(players, Key(Numbered(Spaced(), 2)));
  }

  lemma NumberedLength(base: Name, n: nat)
    requires n < 100 && |base| <= NAME_LENGTH
    ensures 1 <= |Numbered(base, n)| <= NAME_LENGTH
  {
  }

  /** A numbered name is clean unless the cut leaves a space at its end. */
  lemma NumberedIsClean(base: Name, n: nat)
    requires IsClean(base) && n < 100
    ensures var cut := Least(|base|, NAME_LENGTH - |Decimal(n)| - 2);
            1 <= cut <= |base| && (IsClean(Numbered(base, n)) <==> Plain(base[cut - 1]) != SPACE)
  {
    var cut := Least(|base|, NAME_LENGTH - |Decimal(n)| - 2);
    NumberedBytes(base, n);
    hide Numbered, Decimal, Allowed, Plain;
    assert |Numbered(base, n)| == |Decimal(n)| + 2 + cut;
  }

  lemma NumberedBytes(base: Name, n: nat)
    requires IsClean(base) && n < 100
    ensures var cut, name := Least(|base|, NAME_LENGTH - |Decimal(n)| - 2), Numbered(base, n);
            && 1 <= |Decimal(n)| <= 2 && |name| == |Decimal(n)| + 2 + cut
            && Plain(name[0]) != SPACE && name[|name| - 1] == base[cut - 1]
            && forall b :: b in name ==> Allowed(b)
  {
    hide IsClean;
    CleanBytes(base);
    var cut := Least(|base|, NAME_LENGTH - |Decimal(n)| - 2);
    assert 1 <= |Decimal(n)| <= 2;
    hide Decimal, Allowed;
    var prefix := [40] + Decimal(n) + [41];
    forall b | b in prefix
      ensures Allowed(b)
    {
      assert b == 40 || b == 41 || 48 <= b <= 57;
      DigitsAllowed(b);
    }
    forall b | b in prefix + base[..cut]
      ensures Allowed(b)
    {
      if b in base[..cut] {
        assert b in base;
      }
    }
  }

  lemma DigitsAllowed(b: u8)
    requires b == 40 || b == 41 || 48 <= b <= 57
    ensures Allowed(b)
  {
  }

  lemma CleanBytes(name: Name)
    requires IsClean(name)
    ensures 1 <= |name| <= NAME_LENGTH && forall b :: b in name ==> Allowed(b)
  {
  }
}
