/** The contact and chat tables (store.go): two maps keyed by normalised JID,
    filled from lists of nodes that the server pushes and by explicit adds. */
module ContactStore {
  import opened Wrappers
  import opened GoStd
  import opened Binary

  datatype Contact = Contact(jid: string, notify: string, name: string, short: string)

  datatype Chat = Chat(
    jid: string,
    name: string,
    unread: string,
    lastMessageTime: string,
    isMuted: string,
    isMarkedSpam: string)

  const ZeroContact: Contact := Contact("", "", "", "")
  const ZeroChat: Chat := Chat("", "", "", "", "", "")

  /** The error AddContact and AddChat return for an empty JID. */
  const EmptyJidError: string := "jit cannot be empty "

  const UserServer: string := "@c.us"
  const WhatsappServer: string := "@s.whatsapp.net"

  /** The store's key for a JID: the first "@c.us" becomes "@s.whatsapp.net". */
  function NormaliseJid(jid: string): (key: string)
    ensures |key| == |jid| || |key| == |jid| + |WhatsappServer| - |UserServer|
  {
    Replace1(jid, UserServer, WhatsappServer)
  }

  /** A JID whose only '@' opens the "@s.whatsapp.net" suffix is its own key. */
  lemma NormaliseServerJid(user: string)
    requires '@' !in user
    ensures NormaliseJid(user + WhatsappServer) == user + WhatsappServer
  {
    var s := user + WhatsappServer;
    forall j: nat ensures !MatchesAt(s, UserServer, j) {
      if j + |UserServer| <= |s| {
        var w := s[j..j + |UserServer|];
        if j < |user| {
          assert w[0] == user[j] != '@';
        } else if j == |user| {
          assert w[1] == 's';
        } else {
          assert w[0] == WhatsappServer[j - |user|];
          assert forall k | 1 <= k < |WhatsappServer| :: WhatsappServer[k] != '@';
        }
      }
    }
    Replace1Absent(s, UserServer, WhatsappServer);
  }

  /** A user JID "<user>@c.us" is stored under "<user>@s.whatsapp.net". */
  lemma NormaliseUserJid(user: string)
    requires '@' !in user
    ensures NormaliseJid(user + UserServer) == user + WhatsappServer
  {
    var s := user + UserServer;
    assert s[|user|..|user| + |UserServer|] == UserServer;
    forall j: nat | j < |user| ensures !MatchesAt(s, UserServer, j) {
      assert s[j] == user[j] != '@';
    }
    Replace1AtFirst(s, UserServer, WhatsappServer, |user|);
    assert s[..|user|] == user;
    assert s[|user| + |UserServer|..] == [];
  }

  /** The key under which a pushed node is stored. */
  function NodeKey(n: Node): string {
    NormaliseJid(Attr(n, "jid"))
  }

  /** The contact record a pushed node describes; its Jid is the normalised
      one. */
  function ContactOf(n: Node): Contact {
    Contact(NodeKey(n), Attr(n, "notify"), Attr(n, "name"), Attr(n, "short"))
  }

  /** The chat record a pushed node describes; its Jid is the normalised one. */
  function ChatOf(n: Node): Chat {
    Chat(NodeKey(n), Attr(n, "name"), Attr(n, "count"), Attr(n, "t"), Attr(n, "mute"), Attr(n, "spam"))
  }

  /** The table after a pushed list has been absorbed into m, element by
      element: each node writes record(node) under its key, anything else in
      the list is skipped. */
  function Absorb<R>(m: map<string, R>, items: seq<Value>, record: Node -> R): (r: map<string, R>)
    ensures m.Keys <= r.Keys
  {
    if items == [] then m
    else
      var before := Absorb(m, items[..|items| - 1], record);
      match items[|items| - 1]
      case NodeValue(n) => before[NodeKey(n) := record(n)]
      case _ => before
  }

  predicate IsNodeFor(v: Value, key: string) {
    v.NodeValue? && NodeKey(v.node) == key
  }

  /** The last node of the list with a given key decides that key's record. */
  lemma {:induction false} AbsorbLastWins<R>(m: map<string, R>, items: seq<Value>, record: Node -> R, key: string, i: nat)
    requires i < |items| && IsNodeFor(items[i], key)
    requires forall j | i < j < |items| :: !IsNodeFor(items[j], key)
    ensures key in Absorb(m, items, record)
    ensures Absorb(m, items, record)[key] == record(items[i].node)
  {
    if i < |items| - 1 {
      var prefix := items[..|items| - 1];
      assert forall j | i < j < |prefix| :: prefix[j] == items[j];
      AbsorbLastWins(m, prefix, record, key, i);
    }
  }

  /** A key that no node of the list carries keeps its entry, or its absence. */
  lemma {:induction false} AbsorbUntouched<R>(m: map<string, R>, items: seq<Value>, record: Node -> R, key: string)
    requires forall j | 0 <= j < |items| :: !IsNodeFor(items[j], key)
    ensures key in Absorb(m, items, record) <==> key in m
    ensures key in m ==> Absorb(m, items, record)[key] == m[key]
  {
    if items != [] {
      var prefix := items[..|items| - 1];
      assert forall j | 0 <= j < |prefix| :: prefix[j] == items[j];
      assert !IsNodeFor(items[|items| - 1], key);
      AbsorbUntouched(m, prefix, record, key);
    }
  }

  /** Absorbing a list adds exactly the keys of its nodes: a key is present
      afterwards exactly when it was before or some node of the list carries
      it. */
  lemma {:induction false} AbsorbKeys<R>(m: map<string, R>, items: seq<Value>, record: Node -> R, key: string)
    ensures key in Absorb(m, items, record)
        <==> key in m || exists j | 0 <= j < |items| :: IsNodeFor(items[j], key)
  {
    if items != [] {
      var last := |items| - 1;
      var prefix := items[..last];
      AbsorbKeys(m, prefix, record, key);
      var before := Absorb(m, prefix, record);
      if items[last].NodeValue? {
        assert Absorb(m, items, record) == before[NodeKey(items[last].node) := record(items[last].node)];
      } else {
        assert Absorb(m, items, record) == before;
      }
      assert (exists j | 0 <= j < |items| :: IsNodeFor(items[j], key))
         <==> (exists j | 0 <= j < |prefix| :: IsNodeFor(prefix[j], key)) || IsNodeFor(items[last], key)
      by {
        if exists j | 0 <= j < |items| :: IsNodeFor(items[j], key) {
          var j :| 0 <= j < |items| && IsNodeFor(items[j], key);
          if j < last {
            assert IsNodeFor(prefix[j], key);
          }
        }
        if exists j | 0 <= j < |prefix| :: IsNodeFor(prefix[j], key) {
          var j :| 0 <= j < |prefix| && IsNodeFor(prefix[j], key);
          assert IsNodeFor(items[j], key);
        }
      }
    }
  }

  /** A Go map lookup with the comma-ok form, falling back to the zero record. */
  function Lookup<R>(m: map<string, R>, key: string, zero: R): (r: (R, bool))
    ensures r.1 <==> key in m
    ensures r.0 == if key in m then m[key] else zero
  {
    if key in m then (m[key], true) else (zero, false)
  }

  /** A record added for "<user>@c.us" is stored under "<user>@s.whatsapp.net",
      so a lookup with the JID as it was given does not see it. */
  lemma AddedUserJidNotUnderGivenJid<R>(m: map<string, R>, user: string, rec: R, zero: R)
    requires '@' !in user
    ensures Lookup(m[NormaliseJid(user + UserServer) := rec], user + UserServer, zero)
         == Lookup(m, user + UserServer, zero)
    ensures Lookup(m[NormaliseJid(user + UserServer) := rec], user + WhatsappServer, zero) == (rec, true)
  {
    NormaliseUserJid(user);
    assert (user + UserServer)[|user| + 1] == 'c';
    assert (user + WhatsappServer)[|user| + 1] == 's';
  }

  class Store {
    var contacts: map<string, Contact>
    var chats: map<string, Chat>

    /** newStore */
    constructor ()
      ensures contacts == map[] && chats == map[]
    {
      contacts := map[];
      chats := map[];
    }

    /** updateContacts: a pushed value that is not a list changes nothing;
        otherwise every node in it is stored as a contact under its key. */
    method UpdateContacts(update: Value)
      modifies this
      ensures contacts == if update.List? then Absorb(old(contacts), update.items, ContactOf) else old(contacts)
      ensures chats == old(chats)
    {
      if !update.List? {
        return;
      }
      var items := update.items;
      var i := 0;
      while i < |items|
        invariant 0 <= i <= |items|
        invariant contacts == Absorb(old(contacts), items[..i], ContactOf)
        invariant chats == old(chats)
      {
        assert items[..i + 1][..i] == items[..i];
        match items[i] {
          case NodeValue(n) =>
            var jid := NormaliseJid(Attr(n, "jid"));
            contacts := contacts[jid := Contact(jid, Attr(n, "notify"), Attr(n, "name"), Attr(n, "short"))];
          case _ =>
        }
        i := i + 1;
      }
      assert items[..|items|] == items;
    }

    /** GetContact: the stored contact and true, or the zero contact and false.
        The JID is looked up as given, without normalisation. */
    function GetContact(jid: string): (r: (Contact, bool))
      reads this
      ensures r.1 <==> jid in contacts
      ensures r.1 ==> r.0 == contacts[jid]
      ensures !r.1 ==> r.0 == ZeroContact
    {
      Lookup(contacts, jid, ZeroContact)
    }

    /** AddContact: an empty Jid is an error and changes nothing; otherwise the
        contact, as given, is stored under its normalised JID. */
    method AddContact(contact: Contact) returns (err: Option<string>)
      modifies this
      ensures contact.jid == "" ==> err == Some(EmptyJidError) && contacts == old(contacts)
      ensures contact.jid != "" ==> err == None && contacts == old(contacts)[NormaliseJid(contact.jid) := contact]
      ensures contact.jid != "" ==> GetContact(NormaliseJid(contact.jid)) == (contact, true)
      ensures chats == old(chats)
    {
      if contact.jid == "" {
        return Some(EmptyJidError);
      }
      var jid := NormaliseJid(contact.jid);
      contacts := contacts[jid := contact];
      return None;
    }

    /** updateChats: a pushed value that is not a list changes nothing;
        otherwise every node in it is stored as a chat under its key. */
    method UpdateChats(update: Value)
      modifies this
      ensures chats == if update.List? then Absorb(old(chats), update.items, ChatOf) else old(chats)
      ensures contacts == old(contacts)
    {
      if !update.List? {
        return;
      }
      var items := update.items;
      var i := 0;
      while i < |items|
        invariant 0 <= i <= |items|
        invariant chats == Absorb(old(chats), items[..i], ChatOf)
        invariant contacts == old(contacts)
      {
        assert items[..i + 1][..i] == items[..i];
        match items[i] {
          case NodeValue(n) =>
            var jid := NormaliseJid(Attr(n, "jid"));
            chats := chats[jid := Chat(jid, Attr(n, "name"), Attr(n, "count"), Attr(n, "t"), Attr(n, "mute"), Attr(n, "spam"))];
          case _ =>
        }
        i := i + 1;
      }
      assert items[..|items|] == items;
    }

    /** GetChat: the stored chat and true, or the zero chat and false. */
    function GetChat(jid: string): (r: (Chat, bool))
      reads this
      ensures r.1 <==> jid in chats
      ensures r.1 ==> r.0 == chats[jid]
      ensures !r.1 ==> r.0 == ZeroChat
    {
      Lookup(chats, jid, ZeroChat)
    }

    /** AddChat: an empty Jid is an error and changes nothing; otherwise the
        chat, as given, is stored under its normalised JID. */
    method AddChat(chat: Chat) returns (err: Option<string>)
      modifies this
      ensures chat.jid == "" ==> err == Some(EmptyJidError) && chats == old(chats)
      ensures chat.jid != "" ==> err == None && chats == old(chats)[NormaliseJid(chat.jid) := chat]
      ensures chat.jid != "" ==> GetChat(NormaliseJid(chat.jid)) == (chat, true)
      ensures contacts == old(contacts)
    {
      if chat.jid == "" {
        return Some(EmptyJidError);
      }
      var jid := NormaliseJid(chat.jid);
      chats := chats[jid := chat];
      return None;
    }
  }
}
