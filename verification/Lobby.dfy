/** Who is in the lobby: slots, user ids, names, and each client's scoreboard. */
module Lobby {
  import opened Words
  import opened LobbyNames

  datatype Client = Client(slot: nat, userID: u32, name: Name)

  /** Connected clients have slots, ids and names of their own. */
  predicate Proper(clients: seq<Client>, nextUserID: u32) {
    && (forall i :: 0 <= i < |clients| ==> ProperClient(clients[i], nextUserID))
    && (forall i, j :: 0 <= i < j < |clients| ==> Distinct(clients[i], clients[j]))
  }

  predicate ProperClient(c: Client, nextUserID: u32) {
    c.slot < MAX_PLAYERS && 1 <= c.userID <= nextUserID && 1 <= |c.name| <= NAME_LENGTH
  }

  predicate Distinct(a: Client, b: Client) {
    a.slot != b.slot && a.userID != b.userID && Key(a.name) != Key(b.name)
  }

  /** The players by slot. */
  function PlayersOf(clients: seq<Client>, nextUserID: u32): Players
    requires forall i :: 0 <= i < |clients| ==> ProperClient(clients[i], nextUserID)
  {
    if clients == [] then NoPlayers()
    else
      var c := clients[|clients| - 1];
      assert ProperClient(c, nextUserID);
      PlayersOf(clients[..|clients| - 1], nextUserID)[c.slot := Player(c.name, c.userID)]
  }

  /** Every client is where its slot says, and every other slot is free. */
  lemma {:induction false} PlayerAt(clients: seq<Client>, nextUserID: u32)
    requires Proper(clients, nextUserID)
    ensures var players := PlayersOf(clients, nextUserID);
            && (forall i :: 0 <= i < |clients| ==>
                  players[clients[i].slot] == Player(clients[i].name, clients[i].userID))
            && (forall s :: 0 <= s < MAX_PLAYERS && players[s].userID != 0 ==>
                  exists i :: 0 <= i < |clients| && clients[i].slot == s)
  {
    hide Key;
    if clients != [] {
      var n := |clients| - 1;
      var init := clients[..n];
      ProperInit(clients, nextUserID);
      PlayerAt(init, nextUserID);
      hide Proper;
      var before, players := PlayersOf(init, nextUserID), PlayersOf(clients, nextUserID);
      assert players == before[clients[n].slot := Player(clients[n].name, clients[n].userID)];
      forall i | 0 <= i < |clients|
        ensures players[clients[i].slot] == Player(clients[i].name, clients[i].userID)
      {
        if i < n {
          assert init[i] == clients[i];
        }
      }
      forall s | 0 <= s < MAX_PLAYERS && PlayersOf(clients, nextUserID)[s].userID != 0
        ensures exists i :: 0 <= i < |clients| && clients[i].slot == s
      {
        if s == clients[n].slot {
          assert clients[n].slot == s;
        } else {
          var i :| 0 <= i < |init| && init[i].slot == s;
          assert clients[i].slot == s;
        }
      }
    }
  }

  lemma ProperInit(clients: seq<Client>, nextUserID: u32)
    requires Proper(clients, nextUserID) && clients != []
    ensures Proper(clients[..|clients| - 1], nextUserID)
    ensures forall i :: 0 <= i < |clients| ==> ProperClient(clients[i], nextUserID)
    ensures forall i :: 0 <= i < |clients| - 1 ==> clients[i].slot != clients[|clients| - 1].slot
  {
    hide Key;
    assert forall i :: 0 <= i < |clients| - 1 ==> Distinct(clients[i], clients[|clients| - 1]);
  }

  /** A name whose key is free among the players is free among the clients. */
  lemma FreeKey(clients: seq<Client>, nextUserID: u32, key: Name)
    requires Proper(clients, nextUserID) && !Taken(PlayersOf(clients, nextUserID), key)
    ensures forall i :: 0 <= i < |clients| ==> Key(clients[i].name) != key
  {
    hide Key;
    PlayerAt(clients, nextUserID);
    forall i | 0 <= i < |clients|
      ensures Key(clients[i].name) != key
    {
      var slot := clients[i].slot;
      assert PlayersOf(clients, nextUserID)[slot].userID != 0;
    }
  }

  /** A client with a slot and a key of its own keeps the lobby proper, exactly if
      its user id is not the wrapped one. */
  lemma OneMore(clients: seq<Client>, nextUserID: u32, slot: nat, name: Name)
    requires Proper(clients, nextUserID) && slot < MAX_PLAYERS && SlotFree(clients, slot) && 1 <= |name| <= NAME_LENGTH
    requires forall i :: 0 <= i < |clients| ==> Key(clients[i].name) != Key(name)
    ensures var next: u32 := (nextUserID + 1) % 0x1_0000_0000;
            Proper(clients + [Client(slot, next, name)], next) <==> nextUserID < MAX_U32
  {
    hide Key;
    var next: u32 := (nextUserID + 1) % 0x1_0000_0000;
    var more := clients + [Client(slot, next, name)];
    if nextUserID < MAX_U32 {
      forall i | 0 <= i < |more|
        ensures ProperClient(more[i], next)
      {
        assert i < |clients| ==> ProperClient(clients[i], nextUserID);
      }
      forall i, j | 0 <= i < j < |more|
        ensures Distinct(more[i], more[j])
      {
        if j < |clients| {
          assert Distinct(clients[i], clients[j]);
        } else {
          assert ProperClient(clients[i], nextUserID);
        }
      }
    } else {
      assert !ProperClient(more[|clients|], next);
    }
  }

  class Server {
    var clients: seq<Client>
    var nextUserID: u32

    predicate Valid()
      reads this
    {
      Proper(clients, nextUserID)
    }

    constructor ()
      ensures Valid() && clients == [] && nextUserID == 0
    {
      clients, nextUserID := [], 0;
    }

    method LobbyPlayers() returns (players: Players)
      requires Valid()
      ensures players == PlayersOf(clients, nextUserID)
    {
      hide Key;
      players := NoPlayers();
      for i := 0 to |clients|
        invariant players == PlayersOf(clients[..i], nextUserID)
      {
        assert clients[..i + 1][..i] == clients[..i];
        players := players[clients[i].slot := Player(clients[i].name, clients[i].userID)];
      }
      assert clients[..|clients|] == clients;
    }

    /** A new client gets the first free slot, the next user id and a name of its
        own; it is refused exactly when all slots are taken. The lobby stays proper
        exactly as long as the user id does not wrap. */
    method AdmitLobbyClient(name: Name) returns (admitted: bool)
      requires Valid()
      modifies this
      ensures Valid() <==> !admitted || old(nextUserID) < MAX_U32
      ensures admitted <==> exists s :: 0 <= s < MAX_PLAYERS && SlotFree(old(clients), s)
      ensures !admitted ==> clients == old(clients) && nextUserID == old(nextUserID)
      ensures admitted ==>
                && |clients| == old(|clients|) + 1 && clients[..|clients| - 1] == old(clients)
                && clients[|clients| - 1].userID == nextUserID == (old(nextUserID) + 1) % 0x1_0000_0000
                && IsGiven(name, old(PlayersOf(clients, nextUserID)), clients[|clients| - 1].name)
                && SlotFree(old(clients), clients[|clients| - 1].slot)
                && forall s :: 0 <= s < clients[|clients| - 1].slot ==> !SlotFree(old(clients), s)
    {
      hide Key, Clean, Proper, IsGiven;
      var players := LobbyPlayers();
      FreeSlots(clients, nextUserID);
      for slot := 0 to MAX_PLAYERS
        invariant clients == old(clients) && nextUserID == old(nextUserID)
        invariant forall s :: 0 <= s < slot ==> !SlotFree(clients, s)
      {
        if players[slot].userID == 0 {
          var unique, number := UniqueLobbyName(name, players);
          FreeKey(clients, nextUserID, Key(unique));
          OneMore(clients, nextUserID, slot, unique);
          nextUserID := (nextUserID + 1) % 0x1_0000_0000;
          clients := clients + [Client(slot, nextUserID, unique)];
          return true;
        }
      }
      admitted := false;
    }

    /** The renamed client keeps its slot and id, and its own old name does not
        count as taken. */
    method RenameLobbyClient(i: nat, name: Name) returns (unique: Name)
      requires Valid() && i < |clients|
      modifies this`clients
      ensures Valid() && clients == old(clients)[i := old(clients)[i].(name := unique)]
      ensures (forall j :: 0 <= j < |clients| && j != i ==> Key(old(clients)[j].name) != Key(Clean(name))) ==>
                unique == Clean(name)
      ensures IsGiven(name, old(PlayersOf(clients, nextUserID)[clients[i].slot := NOBODY]), unique)
    {
      hide Clean, IsGiven;
      var players := LobbyPlayers();
      players := players[clients[i].slot := NOBODY];
      PlayerAt(clients, nextUserID);
      ghost var number;
      unique, number := UniqueLobbyName(name, players);
      TakenByOthers(clients, nextUserID, i, Key(unique));
      TakenByOthers(clients, nextUserID, i, Key(Clean(name)));
      clients := clients[i := clients[i].(name := unique)];
    }

    method Disconnect(i: nat)
      requires Valid() && i < |clients|
      modifies this`clients
      ensures Valid() && clients == old(clients)[..i] + old(clients)[i + 1..]
    {
      hide Key;
      clients := clients[..i] + clients[i + 1..];
    }
  }

  predicate SlotFree(clients: seq<Client>, slot: nat) {
    forall i :: 0 <= i < |clients| ==> clients[i].slot != slot
  }

  lemma FreeSlots(clients: seq<Client>, nextUserID: u32)
    requires Proper(clients, nextUserID)
    ensures forall s :: 0 <= s < MAX_PLAYERS ==>
              (PlayersOf(clients, nextUserID)[s].userID == 0 <==> SlotFree(clients, s))
  {
    hide Key;
    PlayerAt(clients, nextUserID);
  }

  /** Without its own entry, a client sees the keys of the others as taken. */
  lemma TakenByOthers(clients: seq<Client>, nextUserID: u32, i: nat, key: Name)
    requires Proper(clients, nextUserID) && i < |clients|
    ensures Taken(PlayersOf(clients, nextUserID)[clients[i].slot := NOBODY], key)
            <==> exists j :: 0 <= j < |clients| && j != i && Key(clients[j].name) == key
  {
    hide Key;
    PlayerAt(clients, nextUserID);
    var others := PlayersOf(clients, nextUserID)[clients[i].slot := NOBODY];
    if Taken(others, key) {
      var s :| 0 <= s < MAX_PLAYERS && others[s].userID != 0 && Key(others[s].name) == key;
      var j :| 0 <= j < |clients| && clients[j].slot == s;
      assert j != i;
    }
    if j :| 0 <= j < |clients| && j != i && Key(clients[j].name) == key {
      assert Distinct(if i < j then clients[i] else clients[j], if i < j then clients[j] else clients[i]);
      assert others[clients[j].slot] == Player(clients[j].name, clients[j].userID);
    }
  }

  // The scoreboard that a client has been told.

  const UPDATES: nat := 8

  /** Slots from `from` on where the scoreboard is out of date. */
  function Stale(board: Players, players: Players, from: nat): nat
    requires from <= MAX_PLAYERS
    decreases MAX_PLAYERS - from
  {
    if from == MAX_PLAYERS then 0
    else (if board[from] == players[from] then 0 else 1) + Stale(board, players, from + 1)
  }

  lemma {:induction false} NoneStale(board: Players, players: Players, from: nat)
    requires from <= MAX_PLAYERS
    ensures Stale(board, players, from) == 0 <==> board[from..] == players[from..]
    decreases MAX_PLAYERS - from
  {
    if from < MAX_PLAYERS {
      NoneStale(board, players, from + 1);
      assert board[from..] == [board[from]] + board[from + 1..];
      assert players[from..] == [players[from]] + players[from + 1..];
    }
  }

  lemma {:induction false} StaleLater(a: Players, b: Players, players: Players, from: nat)
    requires from <= MAX_PLAYERS && a[from..] == b[from..]
    ensures Stale(a, players, from) == Stale(b, players, from)
    decreases MAX_PLAYERS - from
  {
    if from < MAX_PLAYERS {
      assert a[from] == a[from..][0] == b[from..][0] == b[from];
      assert a[from + 1..] == a[from..][1..] == b[from..][1..] == b[from + 1..];
      StaleLater(a, b, players, from + 1);
    }
  }

  /** Slots before `end` that are up to date do not count. */
  lemma {:induction false} StaleFrom(board: Players, players: Players, from: nat, end: nat)
    requires from <= end <= MAX_PLAYERS && board[from..end] == players[from..end]
    ensures Stale(board, players, from) == Stale(board, players, end)
    decreases end - from
  {
    if from < end {
      assert board[from] == board[from..end][0] == players[from..end][0] == players[from];
      assert board[from + 1..end] == board[from..end][1..] == players[from..end][1..] == players[from + 1..end];
      StaleFrom(board, players, from + 1, end);
    }
  }

  /** The scoreboard once the first `reached` slots have been looked at. */
  function Partly(scoreboard: Players, players: Players, reached: nat): Players
    requires reached <= MAX_PLAYERS
  {
    players[..reached] + scoreboard[reached..]
  }

  /** Sends up to eight updates, for the first slots that need one: the scoreboard
      gets that much closer to the players, and nothing is sent exactly when it is
      up to date. */
  method UpdateScoreboard(scoreboard: Players, players: Players)
    returns (board: Players, updates: seq<nat>, ghost reached: nat)
    ensures reached <= MAX_PLAYERS && board == Partly(scoreboard, players, reached)
    ensures forall s: nat :: s in updates <==> s < reached && scoreboard[s] != players[s]
    ensures |updates| == (if Stale(scoreboard, players, 0) < UPDATES then Stale(scoreboard, players, 0) else UPDATES)
    ensures Stale(board, players, 0) == Stale(scoreboard, players, 0) - |updates|
    ensures updates == [] <==> scoreboard == players
  {
    hide Stale, Partly;
    board, updates := scoreboard, [];
    NoneStale(scoreboard, players, 0);
    assert scoreboard[0..] == scoreboard && players[0..] == players;
    NothingReached(scoreboard, players);
    var slot: nat := 0;
    while slot < MAX_PLAYERS && |updates| < UPDATES
      invariant slot <= MAX_PLAYERS && |updates| <= UPDATES
      invariant board == Partly(scoreboard, players, slot)
      invariant |updates| + Stale(scoreboard, players, slot) == Stale(scoreboard, players, 0)
      invariant forall s: nat :: s in updates <==> s < slot && scoreboard[s] != players[s]
    {
      NextSlot(scoreboard, players, slot);
      if board[slot] != players[slot] {
        updates := updates + [slot];
        board := board[slot := players[slot]];
      }
      slot := slot + 1;
    }
    reached := slot;
    NothingLeft(scoreboard, players);
    PartlyStale(board, scoreboard, players, slot);
  }

  lemma NextSlot(scoreboard: Players, players: Players, slot: nat)
    requires slot < MAX_PLAYERS
    ensures var board, next := Partly(scoreboard, players, slot), Partly(scoreboard, players, slot + 1);
            && board[slot] == scoreboard[slot] && board[slot := players[slot]] == next
            && (scoreboard[slot] == players[slot] ==> board == next)
    ensures Stale(scoreboard, players, slot)
            == (if scoreboard[slot] == players[slot] then 0 else 1) + Stale(scoreboard, players, slot + 1)
  {
  }

  lemma NothingReached(scoreboard: Players, players: Players)
    ensures Partly(scoreboard, players, 0) == scoreboard
  {
  }

  lemma NothingLeft(scoreboard: Players, players: Players)
    ensures Stale(scoreboard, players, MAX_PLAYERS) == 0
  {
  }

  lemma PartlyStale(board: Players, scoreboard: Players, players: Players, reached: nat)
    requires reached <= MAX_PLAYERS && board == Partly(scoreboard, players, reached)
    ensures Stale(board, players, 0) == Stale(scoreboard, players, reached)
  {
    assert board[0..reached] == players[0..reached] && board[reached..] == scoreboard[reached..];
    StaleFrom(board, players, 0, reached);
    StaleLater(board, scoreboard, players, reached);
  }

  /** Four updates bring any scoreboard up to date with players that stay. */
  method UpdateFourTimes(scoreboard: Players, players: Players) returns (board: Players)
    ensures board == players
  {
    hide Stale;
    AtMostAll(scoreboard, players, 0);
    var updates;
    ghost var reached;
    board, updates, reached := UpdateScoreboard(scoreboard, players);
    board, updates, reached := UpdateScoreboard(board, players);
    board, updates, reached := UpdateScoreboard(board, players);
    board, updates, reached := UpdateScoreboard(board, players);
    NoneStale(board, players, 0);
    assert board[0..] == board && players[0..] == players;
  }

  lemma {:induction false} AtMostAll(board: Players, players: Players, from: nat)
    requires from <= MAX_PLAYERS
    ensures Stale(board, players, from) <= MAX_PLAYERS - from
    decreases MAX_PLAYERS - from
  {
    if from < MAX_PLAYERS {
      AtMostAll(board, players, from + 1);
    }
  }
}
