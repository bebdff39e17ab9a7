/**
 * The chat server of hw/server.cpp once sockets are taken away: its
 * options, the registry of users (a `std::map` from name to client, kept
 * here as a sequence sorted by name), broadcasting, the user list, and the
 * per-client protocol of `handle_client`. What a client sends arrives as a
 * script of `Incoming` events; what the server sends a client is appended
 * to that client's `inbox`.
 */
module ChatServer {
  import opened Wrappers
  import opened CommandLine

  /** `struct Options`. */
  datatype Options = Options(port: int, maxConcurrentClients: int, timeout: int)

  /**
   * The `Options` constructor: port, client limit and timeout from the
   * arguments, defaulting to 8000, 16 and -1 (no timeout); a non-positive
   * port or limit, or a non-positive timeout other than -1, throws.
   */
  function SetOptions(args: seq<Arg>): (r: Option<Options>)
    ensures r.Some? ==> r.value.port == (if |args| >= 1 then args[0].asInt else 8000)
    ensures r.Some? ==> r.value.maxConcurrentClients == (if |args| >= 2 then args[1].asInt else 16)
    ensures r.Some? ==> r.value.timeout == (if |args| >= 3 then args[2].asInt else -1)
    ensures r.Some? <==> (|args| >= 1 ==> args[0].asInt > 0) && (|args| >= 2 ==> args[1].asInt > 0)
                         && (|args| >= 3 ==> args[2].asInt > 0 || args[2].asInt == -1)
  {
    var port := if |args| >= 1 then args[0].asInt else 8000;
    var maxConcurrentClients := if |args| >= 2 then args[1].asInt else 16;
    var timeout := if |args| >= 3 then args[2].asInt else -1;
    if port <= 0 || maxConcurrentClients <= 0 || (timeout <= 0 && timeout != -1) then None
    else Some(Options(port, maxConcurrentClients, timeout))
  }

  /** `std::string`'s `<`: the first differing character decides, and a proper prefix comes first. */
  predicate Less(a: string, b: string)
    decreases |a|
  {
    if |a| == 0 then |b| > 0
    else |b| > 0 && (if a[0] == b[0] then Less(a[1..], b[1..]) else a[0] < b[0])
  }

  /** No name comes before itself. */
  lemma {:induction false} LessIrreflexive(a: string)
    ensures !Less(a, a)
    decreases |a|
  {
    if |a| > 0 {
      LessIrreflexive(a[1..]);
    }
  }

  /** The order is transitive. */
  lemma {:induction false} LessTransitive(a: string, b: string, c: string)
    requires Less(a, b) && Less(b, c)
    ensures Less(a, c)
    decreases |a|
  {
    if |a| > 0 && a[0] == b[0] && b[0] == c[0] {
      LessTransitive(a[1..], b[1..], c[1..]);
    }
  }

  /** Any two different names are ordered one way or the other. */
  lemma {:induction false} LessTotal(a: string, b: string)
    ensures a == b || Less(a, b) || Less(b, a)
    decreases |a|
  {
    if |a| > 0 && |b| > 0 && a[0] == b[0] {
      LessTotal(a[1..], b[1..]);
      if a[1..] == b[1..] {
        assert a == [a[0]] + a[1..] && b == [b[0]] + b[1..];
      }
    }
  }

  /** One connection. `inbox` holds everything `send_message` has sent it. */
  class Client {
    var name: string
    var isOnline: bool
    var inbox: seq<string>

    /** `new Client()`: no name yet, not online, nothing sent. */
    constructor ()
      ensures name == "" && !isOnline && inbox == []
    {
      name := "";
      isOnline := false;
      inbox := [];
    }

    /** `send_message`. */
    method Send(message: string)
      modifies this`inbox
      ensures inbox == old(inbox) + [message]
    {
      inbox := inbox + [message];
    }
  }

  /** The entries of the registry, in ascending name order. */
  type Users = seq<(string, Client)>

  /** The names are strictly ascending, so each appears once. */
  predicate Sorted(users: Users)
  {
    forall j, k :: 0 <= j < k < |users| ==> Less(users[j].0, users[k].0)
  }

  /** The registered names. */
  function Names(users: Users): set<string>
  {
    set e | e in users :: e.0
  }

  /** `users[name] = client` on a map that does not hold `name`: the entry goes where the order puts it. */
  function Insert(users: Users, name: string, client: Client): (r: Users)
    requires Sorted(users) && name !in Names(users)
    ensures Sorted(r) && |r| == |users| + 1
    ensures (name, client) in r && forall e :: e in users ==> e in r
    ensures forall e :: e in r ==> e in users || e == (name, client)
    decreases |users|, 1
  {
    if |users| == 0 then [(name, client)]
    else if Less(name, users[0].0) then InsertFirst(users, name, client)
    else InsertLater(users, name, client)
  }

  /** The new entry comes before every other. */
  function InsertFirst(users: Users, name: string, client: Client): (r: Users)
    requires Sorted(users) && |users| > 0 && Less(name, users[0].0)
    ensures Sorted(r) && |r| == |users| + 1
    ensures (name, client) in r && forall e :: e in users ==> e in r
    ensures forall e :: e in r ==> e in users || e == (name, client)
  {
    var r := [(name, client)] + users;
    forall k | 0 < k < |r|
      ensures Less(name, r[k].0)
    {
      if k > 1 {
        LessTransitive(name, users[0].0, users[k - 1].0);
      }
    }
    r
  }

  /** The new entry comes after the first. */
  function InsertLater(users: Users, name: string, client: Client): (r: Users)
    requires Sorted(users) && name !in Names(users) && |users| > 0 && !Less(name, users[0].0)
    ensures Sorted(r) && |r| == |users| + 1
    ensures (name, client) in r && forall e :: e in users ==> e in r
    ensures forall e :: e in r ==> e in users || e == (name, client)
    decreases |users|, 0
  {
    assert users[0] in users;
    LessTotal(name, users[0].0);
    assert Names(users[1..]) <= Names(users) by {
      forall e | e in users[1..] ensures e in users {}
    }
    var rest := Insert(users[1..], name, client);
    var r := [users[0]] + rest;
    forall k | 0 < k < |r|
      ensures Less(users[0].0, r[k].0)
    {
      assert r[k] in rest;
    }
    assert forall e :: e in users ==> e == users[0] || e in users[1..] by {
      assert users == [users[0]] + users[1..];
    }
    r
  }

  /** `users.erase(name)`. */
  function Remove(users: Users, name: string): (r: Users)
    requires Sorted(users)
    ensures Sorted(r) && |r| <= |users|
    ensures forall e :: e in users && e.0 != name ==> e in r
    ensures forall e :: e in r ==> e in users && e.0 != name
  {
    if |users| == 0 then []
    else
      var rest := Remove(users[1..], name);
      assert forall e :: e in users ==> e == users[0] || e in users[1..] by {
        assert users == [users[0]] + users[1..];
      }
      if users[0].0 == name then rest
      else
        SortedCons(users[0], rest);
        [users[0]] + rest
  }

  /** An entry whose name comes before every name of a sorted registry can go in front of it. */
  lemma SortedCons(first: (string, Client), rest: Users)
    requires Sorted(rest) && forall e :: e in rest ==> Less(first.0, e.0)
    ensures Sorted([first] + rest)
  {
    var r := [first] + rest;
    forall j, k | 0 <= j < k < |r|
      ensures Less(r[j].0, r[k].0)
    {
      if j == 0 {
        assert r[k] in rest;
      } else {
        assert r[j] == rest[j - 1] && r[k] == rest[k - 1];
      }
    }
  }

  /** `get_userlist`: `\n\t-` and the name, for every user in ascending name order. */
  function Userlist(users: Users): string
  {
    if |users| == 0 then "" else "\n\t-" + users[0].0 + Userlist(users[1..])
  }

  /** The list of two runs of users is the two lists in a row. */
  lemma {:induction false} UserlistAppend(xs: Users, ys: Users)
    ensures Userlist(xs + ys) == Userlist(xs) + Userlist(ys)
  {
    if |xs| == 0 {
      assert xs + ys == ys;
    } else {
      assert (xs + ys)[0] == xs[0] && (xs + ys)[1..] == xs[1..] + ys;
      UserlistAppend(xs[1..], ys);
    }
  }

  /** Every registered user is listed, at its place in the order, after those before it and before those after it. */
  lemma UserlistShows(users: Users, k: int)
    requires 0 <= k < |users|
    ensures Userlist(users) == Userlist(users[..k]) + ("\n\t-" + users[k].0) + Userlist(users[k + 1..])
  {
    assert users == users[..k] + users[k..];
    UserlistAppend(users[..k], users[k..]);
    assert users[k..][1..] == users[k + 1..];
  }

  /** What a client's `get_message` yields: a timeout, or the text received (empty when the peer closed or `recv` failed). */
  datatype Incoming = TimedOut | Received(text: string)

  /** The message that `get_message` gives back: empty on a timeout. */
  function Text(m: Incoming): string
  {
    if m.TimedOut? then "" else m.text
  }

  /** A message after which the client leaves: a timeout, an empty message or `\bye`. */
  predicate Leaves(m: Incoming)
  {
    m.TimedOut? || m.text == "" || m.text == "\\bye"
  }

  /** What the other users are sent when the client `name` sends `m`: a chat line, unless `m` is `\list` or makes it leave. */
  function Said(name: string, m: Incoming): seq<string>
  {
    if Leaves(m) || m.text == "\\list" then [] else ["[" + name + "] " + m.text]
  }

  /** What the client itself is sent in answer to `m`: the user list for `\list`, a notice on a timeout. */
  function Reply(list: string, m: Incoming): seq<string>
  {
    if m.TimedOut? then [TimedOutNotice]
    else if m.text == "\\list" then [UsersNotice + list]
    else []
  }

  /** The chat lines the client `name` broadcasts before it leaves (a script that runs out reads as a closed connection). */
  function Chat(name: string, script: seq<Incoming>): seq<string>
  {
    if |script| == 0 then []
    else Said(name, script[0]) + (if Leaves(script[0]) then [] else Chat(name, script[1..]))
  }

  /** What the client itself is sent before it leaves, when the user list reads `list`. */
  function Replies(list: string, script: seq<Incoming>): seq<string>
  {
    if |script| == 0 then []
    else Reply(list, script[0]) + (if Leaves(script[0]) then [] else Replies(list, script[1..]))
  }

  const TimedOutNotice: string := "<SERVER> Connection timed out"
  const UsersNotice: string := "<SERVER> Currently connected users are:"
  const Welcome: string := "<SERVER> Welcome to the chatroom\n" + UsersNotice

  function Joined(name: string): string { "<SERVER> Client " + name + " has joined the chatroom" }
  function Left(name: string): string { "<SERVER> Client " + name + " has left the chatroom" }

  /** What the other users are sent while the client `name` is in the chatroom: its arrival, its chat lines and its leaving. */
  function Announced(name: string, script: seq<Incoming>): seq<string>
  {
    [Joined(name)] + Chat(name, script) + [Left(name)]
  }

  /** Every line the other users see from the client `name` carries that name, and there is at most one line per message. */
  lemma {:induction false} ChatTagged(name: string, script: seq<Incoming>)
    ensures |Chat(name, script)| <= |script|
    ensures forall line :: line in Chat(name, script) ==> |line| >= |name| + 3 && line[..|name| + 3] == "[" + name + "] "
  {
    if |script| > 0 && !Leaves(script[0]) {
      ChatTagged(name, script[1..]);
      if script[0].text != "\\list" {
        var line := "[" + name + "] " + script[0].text;
        assert line[..|name| + 3] == "[" + name + "] ";
      }
    }
  }

  /** The session read from `pos` on: the message at `pos`, then the rest unless it makes the client leave. */
  lemma SessionStep(name: string, list: string, script: seq<Incoming>, pos: int)
    requires 0 <= pos < |script|
    ensures Chat(name, script[pos..]) ==
              Said(name, script[pos]) + (if Leaves(script[pos]) then [] else Chat(name, script[pos + 1..]))
    ensures Replies(list, script[pos..]) ==
              Reply(list, script[pos]) + (if Leaves(script[pos]) then [] else Replies(list, script[pos + 1..]))
  {
    assert script[pos..][0] == script[pos] && script[pos..][1..] == script[pos + 1..];
  }

  /** Output delivered so far, the output of one more message, and the output still to come. */
  lemma Settle(done: seq<string>, step: seq<string>, rest: seq<string>, total: seq<string>)
    requires done + (step + rest) == total
    ensures (done + step) + rest == total
    ensures rest == [] ==> done + step == total
  {
    assert (done + step) + rest == done + (step + rest);
  }

  /**
   * The output of the session so far, after one more message: either the
   * session goes on with the rest of the script, or the message ends it and
   * all its output has been delivered.
   */
  lemma Progress(name: string, list: string, script: seq<Incoming>, pos: int, message: Incoming,
                 heard: seq<string>, replied: seq<string>)
    requires 0 <= pos <= |script| && message == if pos < |script| then script[pos] else Received("")
    requires heard + Chat(name, script[pos..]) == Chat(name, script)
    requires replied + Replies(list, script[pos..]) == Replies(list, script)
    ensures !Leaves(message) ==> pos < |script|
    ensures !Leaves(message) ==> (heard + Said(name, message)) + Chat(name, script[pos + 1..]) == Chat(name, script)
    ensures !Leaves(message) ==> (replied + Reply(list, message)) + Replies(list, script[pos + 1..]) == Replies(list, script)
    ensures Leaves(message) ==> heard + Said(name, message) == Chat(name, script)
    ensures Leaves(message) ==> replied + Reply(list, message) == Replies(list, script)
  {
    if pos < |script| {
      SessionStep(name, list, script, pos);
      if Leaves(message) {
        Settle(heard, Said(name, message), [], Chat(name, script));
        Settle(replied, Reply(list, message), [], Replies(list, script));
      } else {
        Settle(heard, Said(name, message), Chat(name, script[pos + 1..]), Chat(name, script));
        Settle(replied, Reply(list, message), Replies(list, script[pos + 1..]), Replies(list, script));
      }
    } else {
      assert script[pos..] == [];
    }
  }

  /** Appending two pieces one after the other is appending them together. */
  lemma Append(start: seq<string>, done: seq<string>, step: seq<string>)
    ensures (start + done) + step == start + (done + step)
  {
  }

  /**
   * The server's shared state: the `users` map and the `live_users`
   * counter that `Client::close_` decrements.
   */
  class Server {
    var users: Users
    var liveUsers: int

    /** The clients in the registry. */
    function Clients(): set<Client>
      reads this`users
    {
      set e | e in users :: e.1
    }

    /** The registry is ordered by name, and each client is filed under its own name. */
    ghost predicate Valid()
      reads this`users, Clients()`name
    {
      Sorted(users) && forall e :: e in users ==> e.0 == e.1.name
    }

    /** Different entries hold different clients. */
    lemma Distinct()
      requires Valid()
      ensures forall j, k :: 0 <= j < k < |users| ==> users[j].1 != users[k].1
    {
      forall j, k | 0 <= j < k < |users|
        ensures users[j].1 != users[k].1
      {
        assert users[j] in users && users[k] in users;
        LessIrreflexive(users[j].0);
      }
    }

    /** `register_client`: a name already present is refused; otherwise the client is filed under it and goes online. */
    method Register(client: Client) returns (ok: bool)
      requires Valid()
      modifies this`users, client`isOnline
      ensures Valid()
      ensures ok <==> old(client.name) !in Names(old(users))
      ensures ok ==> users == Insert(old(users), client.name, client) && client.isOnline
      ensures !ok ==> users == old(users) && client.isOnline == old(client.isOnline)
    {
      if client.name in Names(users) {
        return false;
      }
      users := Insert(users, client.name, client);
      client.isOnline := true;
      return true;
    }

    /** `unregister_client`: the client goes offline and its name leaves the registry. */
    method Unregister(client: Client)
      requires Valid()
      modifies this`users, client`isOnline
      ensures Valid() && !client.isOnline
      ensures users == Remove(old(users), client.name)
    {
      client.isOnline := false;
      users := Remove(users, client.name);
    }

    /** `broadcast`: every registered client except the sender is sent the message. */
    method Broadcast(sender: Client, message: string)
      requires Valid()
      modifies Clients()`inbox
      ensures forall e :: e in users ==>
                e.1.inbox == old(e.1.inbox) + (if e.1 == sender then [] else [message])
    {
      Distinct();
      var i := 0;
      while i < |users|
        invariant 0 <= i <= |users|
        invariant forall j :: 0 <= j < |users| ==>
                    users[j].1.inbox == old(users[j].1.inbox) + (if j < i && users[j].1 != sender then [message] else [])
      {
        var client := users[i].1;
        if client != sender {
          client.Send(message);
        }
        i := i + 1;
      }
      forall e | e in users
        ensures e.1.inbox == old(e.1.inbox) + (if e.1 == sender then [] else [message])
      {
        var k :| 0 <= k < |users| && users[k] == e;
      }
    }

    /** `Client::close_`: one live connection fewer. */
    method Close()
      modifies this`liveUsers
      ensures liveUsers == old(liveUsers) - 1
    {
      liveUsers := liveUsers - 1;
    }

    /**
     * The `while (client->is_online)` loop of `handle_client`: messages are
     * taken from `script` in order (once it runs out the connection reads as
     * closed) until one makes the client leave. Every chat line goes to
     * every other registered client, each `\list` is answered with the
     * user list, and leaving takes the client out of the registry. A client
     * that is not online does not enter the loop.
     */
    method Converse(client: Client, script: seq<Incoming>)
      requires Valid()
      requires client.isOnline ==> (client.name, client) in users
      modifies this`users, client`isOnline, client`inbox, Clients()`inbox
      ensures Valid() && !client.isOnline
      ensures users == if old(client.isOnline) then Remove(old(users), client.name) else old(users)
      ensures client.inbox == old(client.inbox) + (if old(client.isOnline) then Replies(Userlist(old(users)), script) else [])
      ensures forall e :: e in old(users) && e.1 != client ==>
                e.1.inbox == old(e.1.inbox) + (if old(client.isOnline) then Chat(client.name, script) else [])
    {
      ghost var before := users;
      ghost var online := client.isOnline;
      ghost var list := Userlist(users);
      ghost var heard: seq<string> := [];
      ghost var replied: seq<string> := [];
      var pos := 0;
      while client.isOnline
        invariant 0 <= pos <= |script| + 1 && Valid()
        invariant client.isOnline ==> online && pos <= |script| && users == before && (client.name, client) in users
        invariant client.isOnline ==> heard + Chat(client.name, script[pos..]) == Chat(client.name, script)
        invariant client.isOnline ==> replied + Replies(list, script[pos..]) == Replies(list, script)
        invariant !client.isOnline ==> users == if online then Remove(before, client.name) else before
        invariant !client.isOnline ==> heard == if online then Chat(client.name, script) else []
        invariant !client.isOnline ==> replied == if online then Replies(list, script) else []
        invariant client.inbox == old(client.inbox) + replied
        invariant forall e :: e in before && e.1 != client ==> e.1.inbox == old(e.1.inbox) + heard
        decreases |script| + 1 - pos
      {
        var message := if pos < |script| then script[pos] else Received("");
        Progress(client.name, list, script, pos, message, heard, replied);
        pos := pos + 1;
        Respond(client, message);
        Append(old(client.inbox), replied, Reply(list, message));
        forall e | e in before && e.1 != client
          ensures e.1.inbox == old(e.1.inbox) + (heard + Said(client.name, message))
        {
          Append(old(e.1.inbox), heard, Said(client.name, message));
        }
        heard := heard + Said(client.name, message);
        replied := replied + Reply(list, message);
      }
    }

    /** One pass of the loop of `handle_client`: the dispatch on the message received. */
    method Respond(client: Client, message: Incoming)
      requires Valid() && client.isOnline && (client.name, client) in users
      modifies this`users, client`isOnline, client`inbox, Clients()`inbox
      ensures Valid() && client.isOnline == !Leaves(message)
      ensures users == if Leaves(message) then Remove(old(users), client.name) else old(users)
      ensures client.inbox == old(client.inbox) + Reply(Userlist(old(users)), message)
      ensures forall e :: e in old(users) && e.1 != client ==> e.1.inbox == old(e.1.inbox) + Said(client.name, message)
    {
      if message.TimedOut? {
        client.Send(TimedOutNotice);
        Unregister(client);
      } else if message.text == "" {
        Unregister(client);
      } else if message.text == "\\list" {
        client.Send(UsersNotice + Userlist(users));
      } else if message.text == "\\bye" {
        Unregister(client);
      } else {
        Broadcast(client, "[" + client.name + "] " + message.text);
      }
    }

    /**
     * `handle_client` as it is meant to work: the client is welcomed with the
     * user list and sends its name; an empty name (a closed connection or a
     * timeout) or one already taken closes the connection. An accepted
     * client is announced to the others, converses, and is announced as
     * gone. The registry ends as it began, with one live connection fewer.
     */
    method HandleClient(client: Client, first: Incoming, script: seq<Incoming>)
      requires Valid() && client !in Clients() && !client.isOnline
      modifies this`users, this`liveUsers, client`name, client`isOnline, client`inbox, Clients()`inbox
      ensures Valid() && users == old(users) && !client.isOnline && client.name == Text(first)
      ensures liveUsers == old(liveUsers) - 1
      ensures var accepted := Text(first) != "" && Text(first) !in Names(old(users));
              client.inbox == old(client.inbox) + [Welcome + Userlist(old(users))]
                + (if accepted then Replies(Userlist(Insert(old(users), Text(first), client)), script) else [])
      ensures var accepted := Text(first) != "" && Text(first) !in Names(old(users));
              forall e :: e in old(users) ==>
                e.1.inbox == old(e.1.inbox) + (if accepted then Announced(Text(first), script) else [])
    {
      Greet(client, first);
      if client.name == "" {
        Close();
        return;
      }
      var ok := Admit(client, script);
      // a refused name ends here too, closed once
      Close();
    }

    /**
     * `handle_client` as written: a taken name closes the connection but
     * does not return, so every registered user (the one who holds the name
     * among them) hears the client join and leave, and the connection is
     * closed a second time.
     */
    method HandleClientAsWritten(client: Client, first: Incoming, script: seq<Incoming>)
      requires Valid() && client !in Clients() && !client.isOnline
      modifies this`users, this`liveUsers, client`name, client`isOnline, client`inbox, Clients()`inbox
      ensures Valid() && users == old(users) && !client.isOnline && client.name == Text(first)
      ensures var taken := Text(first) != "" && Text(first) in Names(old(users));
              liveUsers == old(liveUsers) - (if taken then 2 else 1)
      ensures var accepted := Text(first) != "" && Text(first) !in Names(old(users));
              client.inbox == old(client.inbox) + [Welcome + Userlist(old(users))]
                + (if accepted then Replies(Userlist(Insert(old(users), Text(first), client)), script) else [])
      ensures var accepted := Text(first) != "" && Text(first) !in Names(old(users));
              var taken := Text(first) != "" && Text(first) in Names(old(users));
              forall e :: e in old(users) ==>
                e.1.inbox == old(e.1.inbox)
                  + (if accepted then Announced(Text(first), script) else if taken then [Joined(Text(first)), Left(Text(first))] else [])
    {
      Greet(client, first);
      if client.name == "" {
        Close();
        return;
      }
      ghost var registry := users;
      var ok := Register(client);
      if !ok {
        Close();
        PhantomSession(client, script);
      } else {
        RemoveInsert(registry, client.name, client);
        Session(client, script, registry);
      }
      Close();
    }

    /** The welcome with the user list, then the name the client sends (empty on a timeout). */
    method Greet(client: Client, first: Incoming)
      requires Valid() && client !in Clients()
      modifies client`inbox, client`name
      ensures Valid() && client.name == Text(first)
      ensures client.inbox == old(client.inbox) + [Welcome + Userlist(users)]
    {
      client.Send(Welcome + Userlist(users));
      client.name := Text(first);
    }

    /**
     * A client with a name: refused when the name is taken, otherwise
     * registered, announced, conversing, and announced as gone.
     */
    method Admit(client: Client, script: seq<Incoming>) returns (ok: bool)
      requires Valid() && client !in Clients() && !client.isOnline
      modifies this`users, client`isOnline, client`inbox, Clients()`inbox
      ensures ok <==> client.name !in Names(old(users))
      ensures Valid() && users == old(users) && !client.isOnline
      ensures ok ==> client.inbox == old(client.inbox) + Replies(Userlist(Insert(old(users), client.name, client)), script)
      ensures !ok ==> client.inbox == old(client.inbox)
      ensures forall e :: e in old(users) ==> e.1.inbox == old(e.1.inbox) + (if ok then Announced(client.name, script) else [])
    {
      ghost var registry := users;
      ok := Register(client);
      if !ok {
        return;
      }
      RemoveInsert(registry, client.name, client);
      Session(client, script, registry);
    }

    /** From the announcement of a registered client to the announcement of its leaving; `registry` is the registry without it. */
    method Session(client: Client, script: seq<Incoming>, ghost registry: Users)
      requires Valid() && client.isOnline && (client.name, client) in users
      requires registry == Remove(users, client.name) && forall e :: e in registry ==> e.1 != client
      modifies this`users, client`isOnline, client`inbox, Clients()`inbox
      ensures Valid() && users == registry && !client.isOnline
      ensures client.inbox == old(client.inbox) + Replies(Userlist(old(users)), script)
      ensures forall e :: e in registry ==> e.1.inbox == old(e.1.inbox) + Announced(client.name, script)
    {
      Arrive(client, script, registry);
      Broadcast(client, Left(client.name));
    }

    /** The announcement of a registered client, then its conversation until it leaves. */
    method Arrive(client: Client, script: seq<Incoming>, ghost registry: Users)
      requires Valid() && client.isOnline && (client.name, client) in users
      requires registry == Remove(users, client.name) && forall e :: e in registry ==> e.1 != client
      modifies this`users, client`isOnline, client`inbox, Clients()`inbox
      ensures Valid() && users == registry && !client.isOnline
      ensures client.inbox == old(client.inbox) + Replies(Userlist(old(users)), script)
      ensures forall e :: e in registry ==> e.1.inbox == old(e.1.inbox) + ([Joined(client.name)] + Chat(client.name, script))
    {
      Broadcast(client, Joined(client.name));
      assert client.inbox == old(client.inbox);
      Converse(client, script);
      forall e | e in registry
        ensures e.1.inbox == old(e.1.inbox) + ([Joined(client.name)] + Chat(client.name, script))
      {
        Append(old(e.1.inbox), [Joined(client.name)], Chat(client.name, script));
      }
    }

    /**
     * What a refused client still goes through when nothing stops it: it is
     * announced, skips the loop (it is not online), and is announced as gone.
     */
    method PhantomSession(client: Client, script: seq<Incoming>)
      requires Valid() && !client.isOnline && client !in Clients()
      modifies this`users, client`isOnline, client`inbox, Clients()`inbox
      ensures Valid() && users == old(users) && !client.isOnline && client.inbox == old(client.inbox)
      ensures forall e :: e in users ==> e.1.inbox == old(e.1.inbox) + [Joined(client.name), Left(client.name)]
    {
      Broadcast(client, Joined(client.name));
      label Joining:
      Converse(client, script);
      Broadcast(client, Left(client.name));
      forall e | e in users
        ensures e.1.inbox == old(e.1.inbox) + [Joined(client.name), Left(client.name)]
      {
        assert old@Joining(e.1.inbox) == old(e.1.inbox) + [Joined(client.name)];
      }
    }
  }

  /** Taking out a name that is not registered changes nothing. */
  lemma {:induction false} RemoveAbsent(users: Users, name: string)
    requires Sorted(users) && name !in Names(users)
    ensures Remove(users, name) == users
  {
    if |users| > 0 {
      assert users[0] in users;
      assert Names(users[1..]) <= Names(users) by {
        forall e | e in users[1..] ensures e in users {}
      }
      RemoveAbsent(users[1..], name);
    }
  }

  /** Unregistering a client just registered gives back the registry as it was. */
  lemma {:induction false} RemoveInsert(users: Users, name: string, client: Client)
    requires Sorted(users) && name !in Names(users)
    ensures Remove(Insert(users, name, client), name) == users
    decreases |users|
  {
    if |users| == 0 {
    } else if Less(name, users[0].0) {
      assert Insert(users, name, client)[1..] == users;
      RemoveAbsent(users, name);
    } else {
      assert users[0] in users;
      assert Names(users[1..]) <= Names(users) by {
        forall e | e in users[1..] ensures e in users {}
      }
      RemoveInsert(users[1..], name, client);
      assert users == [users[0]] + users[1..];
    }
  }
}
