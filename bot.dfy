/**
 * The bot's mutable state and the handlers that change it: the configuration
 * catalog (an insertion-ordered dictionary, kept as a map and its key order),
 * the stored user list, and each user's conversation data (`context.user_data`).
 */
module BotState {
  import opened Wrappers
  import opened Text
  import opened ConfigUrl
  import opened ConfigId
  import opened Users
  import opened Probe
  import opened Dispatch
  import opened Catalog

  /** The `awaiting` value of a user's conversation data; `Idle` when it is absent. */
  datatype Awaiting = Idle | AddConfigName | AddConfigUrl | BroadcastMessage

  /** The `new_config` value: absent, `{}`, or `{'name': n}`. */
  datatype Draft = NoDraft | EmptyDraft | NamedDraft(name: string)

  /** One user's conversation data. */
  datatype Session = Session(awaiting: Awaiting, draft: Draft)

  /** A user's conversation data before anything was stored in it. */
  const EmptySession: Session := Session(Idle, NoDraft)

  /** The name used when the draft holds none. */
  const DefaultName: string := "New Config"

  /** `new_config.get('name', 'New Config')`. */
  function DraftName(d: Draft): (name: string)
    ensures d.NamedDraft? ==> name == d.name
    ensures !d.NamedDraft? ==> name == "New Config"
  {
    match d
    case NamedDraft(n) => n
    case _ => DefaultName
  }

  /** What `handle_text` answers. */
  datatype TextReply =
    | NoReply                        // nothing was awaited
    | AdminOnly                      // "only the administrator may use this"
    | AskUrl                         // name stored, asks for the link
    | InvalidUrl                     // link rejected, asks again
    | Added(name: string, id: string)
    | BroadcastSent(sent: nat)

  /** `DEFAULT_CONFIGS`' links: every default entry uses one of these two shapes. */
  function VlessUrl(host: string): string {
    "vless://" + ("826f524a-cea1-4e44-9b49-3381d13b7593@" + host + ":443?security=tls")
  }

  function TrojanUrl(host: string): string {
    "trojan://" + ("password@" + host + ":443?security=tls")
  }

  /** The key order of `DEFAULT_CONFIGS`. */
  const DefaultOrder: seq<string> := [
    "us_vless_1", "us_vless_2", "nl_trojan_1", "ca_vless_1", "de_vless_1",
    "ru_vless_1", "fr_trojan_1", "jp_vless_1", "uk_vless_1", "sg_vless_1"]

  /** `DEFAULT_CONFIGS`, the catalog used when no catalog file can be read. */
  const DefaultConfigs: map<string, Config> := map[
    "us_vless_1" := Config("VLESS - USA 1 \U{1F1FA}\U{1F1F8}", VlessUrl("us1.example.com")),
    "us_vless_2" := Config("VLESS - USA 2 \U{1F1FA}\U{1F1F8}", VlessUrl("us2.example.com")),
    "nl_trojan_1" := Config("Trojan - Netherlands 1 \U{1F1F3}\U{1F1F1}", TrojanUrl("nl1.example.com")),
    "ca_vless_1" := Config("VLESS - Canada 1 \U{1F1E8}\U{1F1E6}", VlessUrl("ca1.example.com")),
    "de_vless_1" := Config("VLESS - Germany 1 \U{1F1E9}\U{1F1EA}", VlessUrl("de1.example.com")),
    "ru_vless_1" := Config("VLESS - Russia 1 \U{1F1F7}\U{1F1FA}", VlessUrl("ru1.example.com")),
    "fr_trojan_1" := Config("Trojan - France 1 \U{1F1EB}\U{1F1F7}", TrojanUrl("fr1.example.com")),
    "jp_vless_1" := Config("VLESS - Japan 1 \U{1F1EF}\U{1F1F5}", VlessUrl("jp1.example.com")),
    "uk_vless_1" := Config("VLESS - UK 1 \U{1F1EC}\U{1F1E7}", VlessUrl("uk1.example.com")),
    "sg_vless_1" := Config("VLESS - Singapore 1 \U{1F1F8}\U{1F1EC}", VlessUrl("sg1.example.com"))]

  /** Every link of the two shapes the default catalog uses passes `validate_config_url`. */
  lemma DefaultShapesValid(host: string)
    ensures ValidConfigUrl(VlessUrl(host)) && ValidConfigUrl(TrojanUrl(host))
  {
    var v := "826f524a-cea1-4e44-9b49-3381d13b7593@" + host + ":443?security=tls";
    var t := "password@" + host + ":443?security=tls";
    assert ("vless://" + v)[..8] == "vless://";
    assert ("trojan://" + t)[..9] == "trojan://";
    assert AllowedPrefixes[0] <= VlessUrl(host);
    assert AllowedPrefixes[2] <= TrojanUrl(host);
  }

  /** The ten default ids are pairwise different. */
  lemma DefaultOrderDistinct()
    ensures |DefaultOrder| == 10 && Distinct(DefaultOrder)
  {
    var o := DefaultOrder;
    // the first two letters tell the ids apart, except within the "us" pair
    assert o[0][9] == '1' && o[1][9] == '2';
    forall i, j | 0 <= i < j < |o| ensures o[i] != o[j] {
      if i != 0 || j != 1 {
        assert o[i][0] != o[j][0] || o[i][1] != o[j][1];
      }
    }
  }

  /** The default catalog's keys are exactly the default order's entries. */
  lemma DefaultKeys()
    ensures forall id :: id in DefaultConfigs <==> id in DefaultOrder
  {
  }

  /** The default catalog is well formed. */
  lemma DefaultCatalogWellFormed()
    ensures CatalogShape(DefaultConfigs, DefaultOrder)
  {
    DefaultOrderDistinct();
    DefaultKeys();
  }

  /** Python's `for uid in users: try: send; sent += 1 except: pass`. */
  method SendToAll(recipients: seq<int>, delivered: int -> bool) returns (sent: nat)
    ensures sent == DeliveredCount(recipients, delivered)
  {
    sent := 0;
    var i := 0;
    while i < |recipients|
      invariant 0 <= i <= |recipients|
      invariant sent == DeliveredCount(recipients[..i], delivered)
    {
      assert recipients[..i + 1][..i] == recipients[..i];
      if delivered(recipients[i]) {
        sent := sent + 1;
      }
      i := i + 1;
    }
    assert recipients[..i] == recipients;
  }

  /** The catalog's ids are its order's entries, each once. */
  ghost predicate CatalogShape(configs: map<string, Config>, order: seq<string>) {
    Distinct(order) && forall id :: id in configs <==> id in order
  }

  /** Adding a new id to the dictionary appends it to the key order. */
  lemma AddKeepsShape(configs: map<string, Config>, order: seq<string>, id: string, c: Config)
    requires CatalogShape(configs, order) && id !in configs
    ensures CatalogShape(configs[id := c], order + [id])
  {
    assert id !in order;
  }

  /** In these conversations only the administrator's is waiting for text. */
  ghost predicate AdminOnlyWaiting(sessions: map<int, Session>) {
    forall u :: u in sessions && sessions[u].awaiting != Idle ==> IsAdmin(u)
  }

  /** Storing a conversation that waits only if it is the administrator's keeps the invariant. */
  lemma StoreKeepsAdminOnly(sessions: map<int, Session>, u: int, s: Session)
    requires AdminOnlyWaiting(sessions)
    requires s.awaiting != Idle ==> IsAdmin(u)
    ensures AdminOnlyWaiting(sessions[u := s])
  {
  }

  class Bot {
    /** `CONFIGS`: entry by id; the file on disk is rewritten with it after every change. */
    var configs: map<string, Config>
    /** The insertion order of `CONFIGS`' keys. */
    var order: seq<string>
    /** The contents of the users file. */
    var users: seq<int>
    /** `context.user_data` of each user that has any. */
    var sessions: map<int, Session>

    ghost predicate Valid()
      reads this
    {
      && CatalogShape(configs, order)
    }

    /** Only the administrator's conversation is ever waiting for text. */
    ghost predicate OnlyAdminWaits()
      reads this
    {
      AdminOnlyWaiting(sessions)
    }

    function SessionOf(userId: int): Session
      reads this
    {
      if userId in sessions then sessions[userId] else EmptySession
    }

    /** The state after loading: the stored catalog and user list, no conversations. */
    constructor (ids: seq<string>, entries: map<string, Config>, storedUsers: seq<int>)
      requires Distinct(ids) && forall id :: id in entries <==> id in ids
      ensures Valid() && OnlyAdminWaits()
      ensures order == ids && configs == entries && users == storedUsers && sessions == map[]
    {
      order := ids;
      configs := entries;
      users := storedUsers;
      sessions := map[];
    }

    /** `register_user`: add the id to the stored list unless it is already there. */
    method RegisterUser(id: int)
      requires Valid()
      modifies this`users
      ensures Valid()
      ensures id in old(users) ==> users == old(users)
      ensures id !in old(users) ==> users == SortedUnique(old(users) + [id])
      ensures users == Registered(old(users), id)
      ensures id in users && forall u :: u in users <==> u in old(users) || u == id
      ensures id !in old(users) ==> StrictlyAscending(users)
      ensures StrictlyAscending(old(users)) ==> StrictlyAscending(users)
    {
      var stored := users;
      if id !in stored {
        stored := stored + [id];
        users := SortedUnique(stored);
      }
    }

    /** `perform_remove_config`: delete the entry if present; returns its name. */
    method RemoveConfig(id: string) returns (removed: Option<string>)
      requires Valid()
      modifies this`configs, this`order
      ensures Valid()
      ensures id in old(configs) ==>
        && removed == Some(old(configs)[id].name)
        && configs == old(configs) - {id}
        && order == Without(old(order), id)
        && exists k :: 0 <= k < |old(order)| && old(order)[k] == id && order == old(order)[..k] + old(order)[k + 1..]
      ensures id !in old(configs) ==>
        removed == None && configs == old(configs) && order == old(order)
    {
      if id in configs {
        var k := WithoutDeletesOne(order, id);
        removed := Some(configs[id].name);
        configs := configs - {id};
        WithoutDistinct(order, id);
        order := Without(order, id);
      } else {
        removed := None;
      }
    }

    /**
     * `generate_config_id`: the slug of `name` with the first suffix drawn from
     * `rolls` (the successive `random.randint(1000, 9999)` results) whose
     * candidate is not yet a catalog id.
     */
    method NewConfigId(name: string, rules: CharRules, rolls: seq<int>) returns (id: string)
      requires forall i :: 0 <= i < |rolls| ==> 1000 <= rolls[i] <= 9999
      requires exists i :: 0 <= i < |rolls| && Candidate(Slug(name, rules), rolls[i]) !in configs
      ensures id !in configs
      ensures exists k :: 0 <= k < |rolls| && id == Candidate(Slug(name, rules), rolls[k])
                && forall j :: 0 <= j < k ==> Candidate(Slug(name, rules), rolls[j]) in configs
      ensures var base := Slug(name, rules);
        && |id| == |base| + 5 && id[..|base|] == base && id[|base|] == '_'
        && AllDigits(id[|base| + 1..]) && 1000 <= DigitsValue(id[|base| + 1..]) <= 9999
    {
      id := Reroll(Slug(name, rules), rolls);
    }

    /** The re-roll loop of `generate_config_id` for a given slug. */
    method Reroll(base: string, rolls: seq<int>) returns (id: string)
      requires forall i :: 0 <= i < |rolls| ==> 1000 <= rolls[i] <= 9999
      requires exists i :: 0 <= i < |rolls| && Candidate(base, rolls[i]) !in configs
      ensures id !in configs
      ensures exists k :: 0 <= k < |rolls| && id == Candidate(base, rolls[k])
                && forall j :: 0 <= j < k ==> Candidate(base, rolls[j]) in configs
      ensures |id| == |base| + 5 && id[..|base|] == base && id[|base|] == '_'
      ensures AllDigits(id[|base| + 1..]) && 1000 <= DigitsValue(id[|base| + 1..]) <= 9999
    {
      ghost var free :| 0 <= free < |rolls| && Candidate(base, rolls[free]) !in configs;
      var k := 0;
      var candidate := Candidate(base, rolls[0]);
      while candidate in configs
        invariant 0 <= k < |rolls| && candidate == Candidate(base, rolls[k])
        invariant forall j :: 0 <= j < k ==> Candidate(base, rolls[j]) in configs
        invariant k <= free
        decreases free - k
      {
        k := k + 1;
        candidate := Candidate(base, rolls[k]);
      }
      id := candidate;
      CandidateShape(base, rolls[k]);
    }

    /** Whether a text from `userId` completes the add flow. */
    predicate WillAdd(userId: int, text: string)
      reads this
    {
      IsAdmin(userId) && SessionOf(userId).awaiting == AddConfigUrl && ValidConfigUrl(Strip(text))
    }

    /** `handle_text`: register the sender, then advance their conversation. */
    method HandleText(userId: int, text: string, rules: CharRules, rolls: seq<int>, delivered: int -> bool)
      returns (reply: TextReply)
      requires Valid()
      requires forall i :: 0 <= i < |rolls| ==> 1000 <= rolls[i] <= 9999
      requires WillAdd(userId, text) ==>
        exists i :: 0 <= i < |rolls| && Candidate(Slug(DraftName(SessionOf(userId).draft), rules), rolls[i]) !in configs
      modifies this
      ensures Valid()
      ensures old(OnlyAdminWaits()) ==> OnlyAdminWaits()
      ensures users == Registered(old(users), userId)
      // nothing awaited: only the registration happens
      ensures old(SessionOf(userId)).awaiting == Idle ==>
        && reply == NoReply
        && sessions == old(sessions) && configs == old(configs) && order == old(order)
      // a pending value for anyone but the administrator is dropped
      ensures old(SessionOf(userId)).awaiting != Idle && !IsAdmin(userId) ==>
        && reply == AdminOnly
        && sessions == old(sessions)[userId := EmptySession]
        && configs == old(configs) && order == old(order)
      // the stripped text becomes the draft's name
      ensures IsAdmin(userId) && old(SessionOf(userId)).awaiting == AddConfigName ==>
        && reply == AskUrl
        && sessions == old(sessions)[userId := Session(AddConfigUrl, NamedDraft(Strip(text)))]
        && configs == old(configs) && order == old(order)
      // an invalid link changes nothing
      ensures IsAdmin(userId) && old(SessionOf(userId)).awaiting == AddConfigUrl && !ValidConfigUrl(Strip(text)) ==>
        && reply == InvalidUrl
        && sessions == old(sessions) && configs == old(configs) && order == old(order)
      // a valid link adds exactly one new entry at the end and ends the conversation
      ensures IsAdmin(userId) && old(SessionOf(userId)).awaiting == AddConfigUrl && ValidConfigUrl(Strip(text)) ==>
        && reply.Added?
        && reply.name == DraftName(old(SessionOf(userId)).draft)
        && reply.id !in old(configs)
        && configs == old(configs)[reply.id := Config(reply.name, Strip(text))]
        && order == old(order) + [reply.id]
        && sessions == old(sessions)[userId := EmptySession]
        && exists k :: 0 <= k < |rolls| && reply.id == Candidate(Slug(reply.name, rules), rolls[k])
      // a broadcast text goes to every stored user; only `awaiting` is dropped
      ensures IsAdmin(userId) && old(SessionOf(userId)).awaiting == BroadcastMessage ==>
        && reply == BroadcastSent(DeliveredCount(users, delivered))
        && sessions == old(sessions)[userId := Session(Idle, old(SessionOf(userId)).draft)]
        && configs == old(configs) && order == old(order)
    {
      RegisterUser(userId);
      var session := SessionOf(userId);
      if session.awaiting == Idle {
        return NoReply;
      }
      if !IsAdmin(userId) {
        if OnlyAdminWaits() { StoreKeepsAdminOnly(sessions, userId, EmptySession); }
        sessions := sessions[userId := EmptySession];
        return AdminOnly;
      }
      match session.awaiting {
        case AddConfigName => reply := TakeName(userId, text);
        case AddConfigUrl => reply := TakeUrl(userId, text, rules, rolls);
        case BroadcastMessage => reply := TakeBroadcast(userId, delivered);
      }
    }

    /** The administrator's text while a name is awaited: it becomes the draft's name. */
    method TakeName(userId: int, text: string) returns (reply: TextReply)
      requires Valid() && IsAdmin(userId)
      modifies this`sessions
      ensures Valid()
      ensures old(OnlyAdminWaits()) ==> OnlyAdminWaits()
      ensures reply == AskUrl
      ensures sessions == old(sessions)[userId := Session(AddConfigUrl, NamedDraft(Strip(text)))]
    {
      if OnlyAdminWaits() { StoreKeepsAdminOnly(sessions, userId, Session(AddConfigUrl, NamedDraft(Strip(text)))); }
      sessions := sessions[userId := Session(AddConfigUrl, NamedDraft(Strip(text)))];
      reply := AskUrl;
    }

    /**
     * The administrator's text while a link is awaited: an invalid link is
     * refused and changes nothing; a valid one is stored under a fresh id at
     * the end of the catalog and the conversation ends.
     */
    method TakeUrl(userId: int, text: string, rules: CharRules, rolls: seq<int>) returns (reply: TextReply)
      requires Valid() && IsAdmin(userId)
      requires forall i :: 0 <= i < |rolls| ==> 1000 <= rolls[i] <= 9999
      requires ValidConfigUrl(Strip(text)) ==>
        exists i :: 0 <= i < |rolls| && Candidate(Slug(DraftName(SessionOf(userId).draft), rules), rolls[i]) !in configs
      modifies this`configs, this`order, this`sessions
      ensures Valid()
      ensures old(OnlyAdminWaits()) ==> OnlyAdminWaits()
      ensures !ValidConfigUrl(Strip(text)) ==>
        reply == InvalidUrl && sessions == old(sessions) && configs == old(configs) && order == old(order)
      ensures ValidConfigUrl(Strip(text)) ==>
        && reply.Added?
        && reply.name == DraftName(old(SessionOf(userId)).draft)
        && reply.id !in old(configs)
        && configs == old(configs)[reply.id := Config(reply.name, Strip(text))]
        && order == old(order) + [reply.id]
        && sessions == old(sessions)[userId := EmptySession]
        && exists k :: 0 <= k < |rolls| && reply.id == Candidate(Slug(reply.name, rules), rolls[k])
    {
      var url := Strip(text);
      if !ValidConfigUrl(url) {
        return InvalidUrl;
      }
      var name := DraftName(SessionOf(userId).draft);
      var id := AddEntry(name, url, rules, rolls);
      if OnlyAdminWaits() { StoreKeepsAdminOnly(sessions, userId, EmptySession); }
      sessions := sessions[userId := EmptySession];
      reply := Added(name, id);
    }

    /** Stores a new entry under a fresh id (`CONFIGS[new_id] = ...`), appended to the order. */
    method AddEntry(name: string, url: string, rules: CharRules, rolls: seq<int>) returns (id: string)
      requires Valid()
      requires forall i :: 0 <= i < |rolls| ==> 1000 <= rolls[i] <= 9999
      requires exists i :: 0 <= i < |rolls| && Candidate(Slug(name, rules), rolls[i]) !in configs
      modifies this`configs, this`order
      ensures Valid()
      ensures id !in old(configs)
      ensures configs == old(configs)[id := Config(name, url)]
      ensures order == old(order) + [id]
      ensures exists k :: 0 <= k < |rolls| && id == Candidate(Slug(name, rules), rolls[k])
    {
      id := NewConfigId(name, rules, rolls);
      AddKeepsShape(configs, order, id, Config(name, url));
      configs := configs[id := Config(name, url)];
      order := order + [id];
    }

    /** The administrator's text while a broadcast is awaited: it goes to every stored user. */
    method TakeBroadcast(userId: int, delivered: int -> bool) returns (reply: TextReply)
      requires Valid() && IsAdmin(userId)
      modifies this`sessions
      ensures Valid()
      ensures old(OnlyAdminWaits()) ==> OnlyAdminWaits()
      ensures reply == BroadcastSent(DeliveredCount(users, delivered))
      ensures sessions == old(sessions)[userId := Session(Idle, old(SessionOf(userId)).draft)]
    {
      var sent := SendToAll(users, delivered);
      if OnlyAdminWaits() { StoreKeepsAdminOnly(sessions, userId, Session(Idle, SessionOf(userId).draft)); }
      sessions := sessions[userId := Session(Idle, SessionOf(userId).draft)];
      reply := BroadcastSent(sent);
    }

    /**
     * `button_handler` as far as it changes state: "add config" and "broadcast"
     * set the pressing user's `awaiting`, a removal payload removes an entry;
     * every other action only renders.
     */
    method PressButton(userId: int, payload: string, rules: CharRules) returns (action: Action)
      requires Valid()
      modifies this`configs, this`order, this`sessions
      ensures Valid()
      ensures old(OnlyAdminWaits()) ==> OnlyAdminWaits()
      ensures action == Decode(payload, IsAdmin(userId), rules)
      // the two buttons that start a conversation, pressed by the administrator or anyone else
      ensures payload == AdminKey(AddConfig) ==>
        && action == (if IsAdmin(userId) then OpenAdmin(AddConfig) else Denied)
        && sessions == (if IsAdmin(userId) then old(sessions)[userId := Session(AddConfigName, EmptyDraft)] else old(sessions))
      ensures payload == AdminKey(Broadcast) ==>
        && action == (if IsAdmin(userId) then OpenAdmin(Broadcast) else Denied)
        && sessions == (if IsAdmin(userId) then old(sessions)[userId := Session(BroadcastMessage, old(SessionOf(userId)).draft)] else old(sessions))
      ensures action == OpenAdmin(AddConfig) ==>
        && sessions == old(sessions)[userId := Session(AddConfigName, EmptyDraft)]
        && configs == old(configs) && order == old(order)
      ensures action == OpenAdmin(Broadcast) ==>
        && sessions == old(sessions)[userId := Session(BroadcastMessage, old(SessionOf(userId)).draft)]
        && configs == old(configs) && order == old(order)
      ensures action.RemoveConfig? ==>
        && sessions == old(sessions)
        && (action.id in old(configs) ==> configs == old(configs) - {action.id} && order == Without(old(order), action.id))
        && (action.id !in old(configs) ==> configs == old(configs) && order == old(order))
      ensures !action.RemoveConfig? && action != OpenAdmin(AddConfig) && action != OpenAdmin(Broadcast) ==>
        sessions == old(sessions) && configs == old(configs) && order == old(order)
    {
      if payload == AdminKey(AddConfig) {
        DecodeAdminKey(AddConfig, IsAdmin(userId), rules);
      } else if payload == AdminKey(Broadcast) {
        DecodeAdminKey(Broadcast, IsAdmin(userId), rules);
      }
      action := Decode(payload, IsAdmin(userId), rules);
      if action == OpenAdmin(AddConfig) {
        if OnlyAdminWaits() { StoreKeepsAdminOnly(sessions, userId, Session(AddConfigName, EmptyDraft)); }
        sessions := sessions[userId := Session(AddConfigName, EmptyDraft)];
      } else if action == OpenAdmin(Broadcast) {
        if OnlyAdminWaits() { StoreKeepsAdminOnly(sessions, userId, Session(BroadcastMessage, SessionOf(userId).draft)); }
        sessions := sessions[userId := Session(BroadcastMessage, SessionOf(userId).draft)];
      } else if action.RemoveConfig? {
        var _ := RemoveConfig(action.id);
      }
    }

    /** The server buttons in catalog order. */
    function ServerButtons(): (bs: seq<Button>)
      reads this
      requires Valid()
      ensures |bs| == |order|
      ensures forall k :: 0 <= k < |order| ==> bs[k] == ServerButton(order[k], configs[order[k]])
    {
      seq(|order|, k requires 0 <= k < |order| && order[k] in configs reads this => ServerButton(order[k], configs[order[k]]))
    }

    /** Each server button is labelled with its entry's name and, pressed by anyone, shows that entry. */
    lemma ServerButtonsOpenEntries(fromAdmin: bool, rules: CharRules)
      requires Valid()
      ensures forall k :: 0 <= k < |order| ==>
        && ServerButtons()[k].text == configs[order[k]].name
        && Decode(ServerButtons()[k].payload, fromAdmin, rules) == ShowConfig(order[k])
    {
      forall k | 0 <= k < |order|
        ensures Decode(ServerButtons()[k].payload, fromAdmin, rules) == ShowConfig(order[k])
      {
        ServerButtonOpensEntry(order[k], configs[order[k]], fromAdmin, rules);
      }
    }

    /**
     * `show_servers_menu`: the server buttons in rows of two (the last row
     * possibly single), followed by a row holding only the back button.
     */
    method ServerRows() returns (keyboard: seq<seq<Button>>)
      requires Valid()
      ensures |keyboard| == (|order| + 1) / 2 + 1
      ensures keyboard[|keyboard| - 1] == [BackButton]
      ensures Flatten(keyboard[..|keyboard| - 1]) == ServerButtons()
      ensures forall r :: 0 <= r < |keyboard| - 1 ==> 1 <= |keyboard[r]| <= 2
      ensures forall r :: 0 <= r < |keyboard| - 2 ==> |keyboard[r]| == 2
    {
      ghost var buttons := ServerButtons();
      var servers := order;
      var rows: seq<seq<Button>> := [];
      var i := 0;
      while i < |servers|
        invariant 0 <= i <= |servers| + 1 && 2 * |rows| == i
        invariant Flatten(rows) == buttons[..if i < |servers| then i else |servers|]
        invariant forall r :: 0 <= r < |rows| ==> 1 <= |rows[r]| <= 2
        invariant forall r :: 0 <= r < |rows| && 2 * r + 2 <= |servers| ==> |rows[r]| == 2
        decreases |servers| - i
      {
        var row := ServerRow(i);
        ghost var next := if i + 2 < |servers| then i + 2 else |servers|;
        assert buttons[..next] == buttons[..i] + row;
        if row != [] {
          FlattenAppend(rows, row);
          rows := rows + [row];
        }
        i := i + 2;
      }
      keyboard := rows + [[BackButton]];
      assert keyboard[..|keyboard| - 1] == rows;
    }

    /** One row of `show_servers_menu`: the buttons of the entries at `i` and `i + 1` that exist. */
    method ServerRow(i: nat) returns (row: seq<Button>)
      requires Valid() && i < |order|
      ensures row == ServerButtons()[i..if i + 2 < |order| then i + 2 else |order|]
    {
      row := [];
      if i < |order| {
        row := row + [ServerButton(order[i], configs[order[i]])];
      }
      if i + 1 < |order| {
        row := row + [ServerButton(order[i + 1], configs[order[i + 1]])];
      }
    }

    /**
     * `run_ping_test`: one report line per entry, in catalog order. `parse` is
     * `urlparse`'s host and port, `connects[k]` the outcome of the connect
     * attempt for the k-th entry (unused when it has no host).
     */
    method PingReport(parse: string -> ParsedUrl, connects: seq<Connect>) returns (lines: seq<ReportLine>)
      requires Valid()
      requires |connects| == |order|
      ensures |lines| == |order|
      ensures forall k :: 0 <= k < |order| ==>
        lines[k] == LineFor(configs[order[k]].name, EndpointOf(parse(configs[order[k]].url)), connects[k])
    {
      var entries: seq<(string, Endpoint)> := [];
      var i := 0;
      while i < |order|
        invariant 0 <= i <= |order| && |entries| == i
        invariant forall k :: 0 <= k < i ==>
          entries[k] == (configs[order[k]].name, EndpointOf(parse(configs[order[k]].url)))
      {
        var entry := configs[order[i]];
        entries := entries + [(entry.name, EndpointOf(parse(entry.url)))];
        i := i + 1;
      }
      lines := [];
      i := 0;
      while i < |entries|
        invariant 0 <= i <= |entries| && |lines| == i
        invariant forall k :: 0 <= k < i ==> lines[k] == LineFor(entries[k].0, entries[k].1, connects[k])
      {
        lines := lines + [LineFor(entries[i].0, entries[i].1, connects[i])];
        i := i + 1;
      }
    }
  }
}
