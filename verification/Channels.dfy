/** Channel ids: claimed when a channel is made, freed when it is collected. */
module Channels {
  import opened Octets

  datatype Refusal =
    | AlreadyOpen     // ConnectionError
    | NoFreeId        // ResourceError
    | DoesNotFit      // OverflowError of the array of unsigned shorts
    | AlreadyClosed   // RecoverableConnectionError

  datatype Answer<+T> = Yes(value: T) | No(refusal: Refusal)

  /** `list.remove`: the first occurrence, if there is one. */
  function Without(ids: seq<int>, id: int): seq<int> {
    if ids == [] then [] else if ids[0] == id then ids[1..] else [ids[0]] + Without(ids[1..], id)
  }

  predicate NoRepeats(ids: seq<int>) {
    ids == [] || (ids[0] !in ids[1..] && NoRepeats(ids[1..]))
  }

  lemma {:induction false} WithoutKeeps(ids: seq<int>, id: int)
    requires NoRepeats(ids)
    ensures NoRepeats(Without(ids, id))
    ensures forall k :: k in Without(ids, id) <==> k in ids && k != id
  {
    if ids != [] {
      assert forall k :: k in ids <==> k == ids[0] || k in ids[1..];
      if ids[0] != id {
        WithoutKeeps(ids[1..], id);
        assert Without(ids, id)[1..] == Without(ids[1..], id);
        assert forall k :: k in Without(ids, id) <==> k == ids[0] || k in Without(ids[1..], id);
      }
    }
  }

  lemma {:induction false} AppendKeeps(ids: seq<int>, id: int)
    requires NoRepeats(ids) && id !in ids
    ensures NoRepeats(ids + [id])
  {
    if ids == [] {
      assert [id][1..] == [];
    } else {
      AppendKeeps(ids[1..], id);
      assert (ids + [id])[1..] == ids[1..] + [id];
    }
  }

  class Connection {
    const channelMax: nat
    /** Set once the connection has been collected and has no channel map any more. */
    var collected: bool
    /** The connection's own entry, under 0, is left out. */
    var channels: map<nat, Channel>
    var usedChannelIds: seq<int>

    constructor (channelMax: nat)
      ensures Valid() && !collected && channels == map[] && usedChannelIds == [] && this.channelMax == channelMax
    {
      this.channelMax := channelMax;
      collected, channels, usedChannelIds := false, map[], [];
    }

    /** While there is a channel map, the used ids are, without duplicates, its keys; and every channel in it is
        either still attached under its own id or has let go of the connection. */
    ghost predicate Valid()
      reads this, channels.Values
    {
      if collected then channels == map[]
      else
        && NoRepeats(usedChannelIds)
        && (forall id :: id in usedChannelIds <==> id in channels)
        && (forall id: nat :: id in channels ==> Holds(id))
    }

    ghost predicate Holds(id: nat)
      requires id in channels
      reads this, channels.Values
    {
      var ch := channels[id];
      && 1 <= id < U16 && ch.home == id
      && (ch.connection != null ==> ch.connection == this && ch.channelId == Some(id))
    }

    lemma AtHome()
      requires Valid() && !collected
      ensures forall ch :: ch in channels.Values ==> ch.home in channels && channels[ch.home] == ch
    {
      forall ch | ch in channels.Values ensures ch.home in channels && channels[ch.home] == ch {
        var id :| id in channels && channels[id] == ch;
        assert Holds(id);
      }
    }

    /** The least free id of 1..channelMax, refused exactly if all of them are used. */
    method GetFreeChannelId() returns (r: Answer<nat>)
      modifies this`usedChannelIds
      ensures match r
        case Yes(id) =>
          && 1 <= id <= channelMax && id < U16 && id !in old(usedChannelIds)
          && (forall j :: 1 <= j < id ==> j in old(usedChannelIds)) && usedChannelIds == old(usedChannelIds) + [id]
        case No(why) =>
          && usedChannelIds == old(usedChannelIds)
          && (why == NoFreeId <==> forall j :: 1 <= j <= channelMax ==> j in usedChannelIds)
          && (why != NoFreeId ==> why == DoesNotFit && channelMax >= U16)
    {
      for id := 1 to channelMax + 1
        invariant forall j :: 1 <= j < id ==> j in usedChannelIds
        invariant usedChannelIds == old(usedChannelIds)
      {
        if id !in usedChannelIds {
          if id >= U16 {
            return No(DoesNotFit);
          }
          usedChannelIds := usedChannelIds + [id];
          return Yes(id);
        }
      }
      r := No(NoFreeId);
    }

    method ClaimChannelId(id: int) returns (r: Answer<nat>)
      modifies this`usedChannelIds
      ensures match r
        case Yes(claimed) =>
          && claimed == id && 0 <= id < U16 && id !in old(usedChannelIds)
          && usedChannelIds == old(usedChannelIds) + [id]
        case No(why) =>
          && usedChannelIds == old(usedChannelIds)
          && (if id in usedChannelIds then why == AlreadyOpen else why == DoesNotFit && !(0 <= id < U16))
    {
      if id in usedChannelIds {
        return No(AlreadyOpen);
      }
      if !(0 <= id < U16) {
        return No(DoesNotFit);
      }
      usedChannelIds := usedChannelIds + [id];
      r := Yes(id);
    }

    /** `channel`: the connection itself under 0 (here None), the channel already open under an id, or a new one under
        that id or, if none is given, under the least free one. What `open` then sends, and whether it fails, changes
        neither the map nor the ids. */
    method GetChannel(id: Option<int>) returns (r: Answer<Option<Channel>>)
      requires Valid()
      modifies this`channels, this`usedChannelIds
      ensures Valid()
      ensures match r
        case Yes(None) =>
          !collected && id == Some(0) && channels == old(channels) && usedChannelIds == old(usedChannelIds)
        case Yes(Some(ch)) =>
          && !collected && id != Some(0) && ch in channels.Values
          && (if id.Some? && id.value in old(channels)
              then ch == old(channels[id.value]) && channels == old(channels) && usedChannelIds == old(usedChannelIds)
              else
                && fresh(ch) && ch.home !in old(channels) && channels == old(channels)[ch.home := ch]
                && usedChannelIds == old(usedChannelIds) + [ch.home] && ch.connection == this
                && (if id.Some? then ch.home == id.value
                    else ch.home <= channelMax && forall j :: 1 <= j < ch.home ==> j in old(usedChannelIds)))
        case No(why) =>
          && channels == old(channels) && usedChannelIds == old(usedChannelIds)
          && (why == AlreadyClosed <==> collected)
          && (!collected && id == None ==>
                (why == NoFreeId <==> forall j :: 1 <= j <= channelMax ==> j in usedChannelIds))
          && (!collected && id == None && why != NoFreeId ==> why == DoesNotFit && channelMax >= U16)
          && (!collected && id.Some? ==>
                why == DoesNotFit && id.value !in usedChannelIds && !(0 <= id.value < U16))
    {
      if collected {
        return No(AlreadyClosed);
      }
      if id == Some(0) {
        return Yes(None);
      }
      if id.Some? && id.value in channels {
        return Yes(Some(channels[id.value]));
      }
      var claimed: Answer<nat>;
      if id.Some? {
        claimed := ClaimChannelId(id.value);
      } else {
        claimed := GetFreeChannelId();
      }
      if claimed.No? {
        return No(claimed.refusal);
      }
      AppendKeeps(old(usedChannelIds), claimed.value);
      var ch := new Channel(this, claimed.value);
      channels := channels[claimed.value := ch];
      assert forall k :: k in usedChannelIds <==> k in old(usedChannelIds) || k == claimed.value;
      assert forall k :: k in old(channels) ==> old(Holds(k));
      r := Yes(Some(ch));
    }

    /** Lets go of every channel, then of the map. */
    method Collect()
      requires Valid()
      modifies this, channels.Values
      ensures collected && Valid()
      ensures forall ch :: ch in old(channels.Values) ==> ch.connection == null && ch.channelId == None && !ch.isOpen
    {
      if !collected {
        var left := channels.Values;
        AtHome();
        while left != {}
          invariant !collected && Valid() && left <= old(channels.Values) && channels.Values <= old(channels.Values)
          invariant forall ch :: ch in left ==> ch.home in channels && channels[ch.home] == ch
          invariant forall ch :: ch in old(channels.Values) && ch !in left ==>
            ch.connection == null && ch.channelId == None && !ch.isOpen
          decreases left
        {
          var ch :| ch in left;
          left := left - {ch};
          assert Holds(ch.home);
          ch.Collect();
        }
      }
      collected, channels := true, map[];
    }
  }

  class Channel {
    ghost const home: nat
    var connection: Connection?
    var channelId: Option<nat>
    var isOpen: bool
    var isClosing: bool

    constructor (connection: Connection, id: nat)
      ensures home == id && this.connection == connection && channelId == Some(id) && !isOpen && !isClosing
    {
      this.connection, channelId, home := connection, Some(id), id;
      isOpen, isClosing := false, false;
    }

    /** A channel attached to a connection is in its map. */
    ghost predicate Attached()
      requires connection != null
      reads this, connection, connection.channels.Values
    {
      connection.Valid() && !connection.collected && this in connection.channels.Values && home in connection.channels
      && connection.channels[home] == this
    }

    /** Collecting a second time changes nothing, whoever has the id by then. */
    method Collect()
      requires connection != null ==> Attached()
      modifies this, connection
      ensures connection == null && channelId == None && !isOpen && isClosing == old(isClosing)
      ensures var c := old(connection); c != null ==>
        && c.Valid() && !c.collected && c.channels == old(connection.channels) - {home}
        && c.usedChannelIds == Without(old(connection.usedChannelIds), home)
        && home !in c.usedChannelIds
    {
      isOpen := false;
      var id, c := channelId, connection;
      channelId, connection := None, null;
      if c != null {
        WithoutKeeps(c.usedChannelIds, id.value);
        c.channels := c.channels - {id.value};
        c.usedChannelIds := Without(c.usedChannelIds, id.value);
      }
    }

    /** `_on_close_ok`. */
    method OnCloseOk()
      requires connection != null ==> Attached()
      modifies this, connection
      ensures connection == null && channelId == None && !isOpen && isClosing == old(isClosing)
      ensures var c := old(connection); c != null ==>
        && c.Valid() && !c.collected && c.channels == old(connection.channels) - {home}
        && c.usedChannelIds == Without(old(connection.usedChannelIds), home)
        && home !in c.usedChannelIds
    {
      Collect();
    }

    /** `close`: asks the peer to close the channel and waits for the answer, which comes or does not. Only if it
        comes is the id freed: otherwise the channel lets go of the connection but stays in its map. */
    method Close(answered: bool) returns (asked: bool)
      requires connection != null ==> Attached()
      modifies this, connection
      ensures connection == null && !isClosing && asked == (old(connection) != null && old(isOpen))
      ensures if asked && answered then !isOpen && channelId == None
              else isOpen == old(isOpen) && channelId == old(channelId)
      ensures var c := old(connection); c != null ==>
        && c.Valid() && !c.collected
        && (home in c.usedChannelIds <==> !(asked && answered))
        && (asked && answered ==> c.channels == old(connection.channels) - {home})
        && (!(asked && answered) ==>
              c.channels == old(connection.channels) && c.usedChannelIds == old(connection.usedChannelIds))
    {
      asked := connection != null && isOpen;
      if asked {
        isClosing := true;
        if answered {
          OnCloseOk();
        }
      }
      isClosing := false;
      connection := null;
    }
  }

  /** What can be done to the channels of a connection, each channel named by its id. */
  datatype Operation =
    | Open(wanted: Option<int>)
    | Opened(id: nat)                    // the peer has confirmed the opening
    | Close(id: nat, answered: bool)
    | CollectChannel(id: nat)
    | CollectConnection

  method Perform(c: Connection, op: Operation)
    requires c.Valid()
    modifies c, c.channels.Values
    ensures c.Valid() && fresh(c.channels.Values - old(c.channels.Values)) && (old(c.collected) ==> c.collected)
    ensures !c.collected ==> forall id :: id in old(c.channels) && old(c.channels[id].connection) == null ==>
      id in c.channels && c.channels[id] == old(c.channels[id]) && c.channels[id].connection == null
  {
    match op {
      case Open(id) =>
        var _ := c.GetChannel(id);
      case CollectConnection =>
        c.Collect();
      case _ =>
        if op.id in c.channels {
          assert c.Holds(op.id);
          PerformOn(c, c.channels[op.id], op);
        }
    }
  }

  /** What is done to one channel. */
  method PerformOn(c: Connection, ch: Channel, op: Operation)
    requires c.Valid() && !c.collected && ch.home in c.channels && c.channels[ch.home] == ch
    requires ch.connection != null ==> ch.connection == c
    requires op.Opened? || op.Close? || op.CollectChannel?
    modifies c, ch
    ensures c.Valid() && !c.collected
    ensures old(ch.connection) == null ==> ch.connection == null && c.channels == old(c.channels)
    ensures old(ch.connection) != null ==> c.channels == old(c.channels) || c.channels == old(c.channels) - {ch.home}
  {
    match op {
      case Opened(_) =>
        ch.isOpen := true;
      case Close(_, answered) =>
        var _ := ch.Close(answered);
      case CollectChannel(_) =>
        ch.Collect();
    }
  }

  /** Whatever is done, in whatever order, while the connection has a channel map its used ids are, without
      duplicates, the keys of the map; and a channel that has let go of the connection stays where it is. */
  method Run(c: Connection, script: seq<Operation>)
    requires c.Valid()
    modifies c, c.channels.Values
    ensures c.Valid() && fresh(c.channels.Values - old(c.channels.Values)) && (old(c.collected) ==> c.collected)
    ensures !c.collected ==> NoRepeats(c.usedChannelIds) && forall id :: id in c.usedChannelIds <==> id in c.channels
    ensures !c.collected ==> forall id :: id in old(c.channels) && old(c.channels[id].connection) == null ==>
      id in c.usedChannelIds && id in c.channels && c.channels[id] == old(c.channels[id])
  {
    for i := 0 to |script|
      invariant c.Valid() && fresh(c.channels.Values - old(c.channels.Values)) && (old(c.collected) ==> c.collected)
      invariant !c.collected ==> forall id :: id in old(c.channels) && old(c.channels[id].connection) == null ==>
        id in c.channels && c.channels[id] == old(c.channels[id]) && c.channels[id].connection == null
    {
      Perform(c, script[i]);
    }
  }

  /** After a close that was not answered the id stays in use, whatever is done then, until the connection is collected:
      closing the channel again does not free it, nor does the answer coming late. */
  method Leaked(c: Connection, ch: Channel, script: seq<Operation>)
    requires ch.connection == c && ch.Attached() && ch.isOpen
    modifies c, c.channels.Values
    ensures c.Valid()
    ensures c.collected || (ch.home in c.usedChannelIds && ch.home in c.channels && c.channels[ch.home] == ch)
  {
    var _ := ch.Close(false);
    Run(c, script);
  }
}
