/**
 * The chat widget of `react/src/components/Chat.js`: one conversation per
 * peer connection, an unread badge per peer, the list of other online users
 * taken from the server's broadcasts, and the open/close button that
 * announces the user to the relay.
 */
module ChatClient {
  import opened Wrappers
  import opened Lists
  import opened Text
  import opened ChatServer

  /** One bubble of a conversation; `senderId` is `"me"` for the user's own messages. */
  datatype ChatMessage = ChatMessage(senderId: string, message: string)

  /** What the widget emits to the relay. */
  datatype ClientEmit =
    | AnnounceUser(name: string)
    | PrivateMessage(message: string, receiver: ConnId)

  /** `messages[peer] || []`. */
  function Conversation(messages: map<ConnId, seq<ChatMessage>>, peer: ConnId): seq<ChatMessage> {
    if peer in messages then messages[peer] else []
  }

  /** `unreadCounts[peer] || 0`. */
  function Unread(counts: map<ConnId, nat>, peer: ConnId): nat {
    if peer in counts then counts[peer] else 0
  }

  /** `{...prev, [peer]: [...(prev[peer] || []), msg]}`. */
  function AppendMessage(messages: map<ConnId, seq<ChatMessage>>, peer: ConnId, msg: ChatMessage): (r: map<ConnId, seq<ChatMessage>>)
    ensures r.Keys == messages.Keys + {peer}
  {
    messages[peer := Conversation(messages, peer) + [msg]]
  }

  /** `{...prev, [peer]: (prev[peer] || 0) + 1}`. */
  function Bump(counts: map<ConnId, nat>, peer: ConnId): (r: map<ConnId, nat>)
    ensures r.Keys == counts.Keys + {peer}
  {
    counts[peer := Unread(counts, peer) + 1]
  }

  /**
   * Appending a message extends that peer's conversation by exactly that
   * message at the end (starting from an empty one) and leaves every other
   * conversation as it was.
   */
  lemma AppendMessageSpec(messages: map<ConnId, seq<ChatMessage>>, peer: ConnId, msg: ChatMessage)
    ensures Conversation(AppendMessage(messages, peer, msg), peer) == Conversation(messages, peer) + [msg]
    ensures forall p :: p != peer ==> Conversation(AppendMessage(messages, peer, msg), p) == Conversation(messages, p)
  {
  }

  /** A bump raises that peer's count by one, starting from 0, and no other count. */
  lemma BumpSpec(counts: map<ConnId, nat>, peer: ConnId)
    ensures Unread(Bump(counts, peer), peer) == Unread(counts, peer) + 1
    ensures forall p :: p != peer ==> Unread(Bump(counts, peer), p) == Unread(counts, p)
  {
  }

  /** `users.filter(u => u.username !== user.name)`: the online list without the user's own row. */
  function VisiblePeers(users: seq<Entry>, self: string): (peers: seq<Entry>)
    ensures forall e :: e in peers <==> e in users && e.username != self
  {
    Filter(users, (e: Entry) => e.username != self)
  }

  /**
   * Fed with a broadcast of the relay's registry, the widget lists every
   * other online user exactly once, in registration order, and never the
   * user itself.
   */
  lemma VisiblePeersOfRegistry(names: seq<string>, reg: map<string, ConnId>, self: string)
    requires Directory(names, reg)
    ensures forall u :: u in Usernames(VisiblePeers(Snapshot(names, reg), self)) <==> u in reg && u != self
    ensures Distinct(Usernames(VisiblePeers(Snapshot(names, reg), self)))
    ensures forall e :: e in VisiblePeers(Snapshot(names, reg), self) ==> BoundTo(reg, e.username, e.socketId)
    ensures Usernames(VisiblePeers(Snapshot(names, reg), self)) == Filter(names, (n: string) => n != self)
  {
    var users := Snapshot(names, reg);
    var peers := VisiblePeers(users, self);
    SnapshotListsRegistry(names, reg);
    UsernamesOfVisiblePeers(users, self);
    forall u ensures u in Usernames(peers) <==> u in reg && u != self {
      InUsernames(peers, u);
      InUsernames(users, u);
    }
    UsernamesFilterDistinct(users, self);
  }

  /** Dropping the user's own rows from a payload drops that name from its usernames, keeping the order. */
  lemma {:induction false} UsernamesOfVisiblePeers(users: seq<Entry>, self: string)
    ensures Usernames(VisiblePeers(users, self)) == Filter(Usernames(users), (n: string) => n != self)
    decreases |users|
  {
    if users != [] {
      var rest := users[1..];
      UsernamesOfVisiblePeers(rest, self);
      var peers := VisiblePeers(rest, self);
      assert Usernames(users)[0] == users[0].username;
      assert Usernames(users)[1..] == Usernames(rest);
      if users[0].username != self {
        assert VisiblePeers(users, self) == [users[0]] + peers;
        UsernamesCons(users[0], peers);
      } else {
        assert VisiblePeers(users, self) == peers;
      }
    }
  }

  /** The usernames of a list with one more row in front. */
  lemma UsernamesCons(e: Entry, users: seq<Entry>)
    ensures Usernames([e] + users) == [e.username] + Usernames(users)
  {
  }

  lemma InUsernames(users: seq<Entry>, u: string)
    ensures u in Usernames(users) <==> exists e :: e in users && e.username == u
  {
    if u in Usernames(users) {
      var i :| 0 <= i < |users| && Usernames(users)[i] == u;
      assert users[i] in users;
    }
    if exists e :: e in users && e.username == u {
      var e :| e in users && e.username == u;
      var i :| 0 <= i < |users| && users[i] == e;
      assert Usernames(users)[i] == u;
    }
  }

  /** Filtering a payload whose usernames are distinct keeps them distinct. */
  lemma UsernamesFilterDistinct(users: seq<Entry>, self: string)
    requires Distinct(Usernames(users))
    ensures Distinct(Usernames(VisiblePeers(users, self)))
  {
    assert Distinct(users) by {
      forall i, j | 0 <= i < j < |users| ensures users[i] != users[j] {
        assert Usernames(users)[i] != Usernames(users)[j];
      }
    }
    FilterDistinct(users, (e: Entry) => e.username != self);
    var peers := VisiblePeers(users, self);
    forall i, j | 0 <= i < j < |peers| ensures Usernames(peers)[i] != Usernames(peers)[j] {
      UsernameNamesOneEntry(users, peers[i], peers[j]);
    }
  }

  /** In a payload with distinct usernames, a username names one entry. */
  lemma UsernameNamesOneEntry(users: seq<Entry>, x: Entry, y: Entry)
    requires Distinct(Usernames(users)) && x in users && y in users
    ensures x.username == y.username ==> x == y
  {
    var a :| 0 <= a < |users| && users[a] == x;
    var b :| 0 <= b < |users| && users[b] == y;
    assert Usernames(users)[a] == x.username && Usernames(users)[b] == y.username;
  }

  /** `inputMessage.trim() && currentChat`: a non-blank input and an open conversation. */
  predicate CanSend(input: string, currentChat: Option<ConnId>) {
    !IsBlank(input) && currentChat.Some? && currentChat.value != ""
  }

  /**
   * A message goes out exactly when the input holds some character that is
   * not white space and a conversation with a non-empty identifier is open.
   */
  lemma CanSendIff(input: string, currentChat: Option<ConnId>)
    ensures CanSend(input, currentChat) <==>
      (exists i :: 0 <= i < |input| && !IsJsSpace(input[i])) && currentChat.Some? && currentChat.value != ""
  {
    BlankIff(input);
  }

  /**
   * Every unread badge counts messages that are really there: a peer's count
   * never exceeds its conversation, and the last that many messages of it all
   * came from that peer.
   */
  ghost predicate UnreadAreIncoming(messages: map<ConnId, seq<ChatMessage>>, counts: map<ConnId, nat>) {
    forall p :: p in counts ==>
      counts[p] <= |Conversation(messages, p)| &&
      forall i :: |Conversation(messages, p)| - counts[p] <= i < |Conversation(messages, p)| ==>
        Conversation(messages, p)[i].senderId == p
  }

  /** A received message keeps the badges honest, whether or not it bumps its sender's count. */
  lemma ReceiveKeepsUnreadIncoming(messages: map<ConnId, seq<ChatMessage>>, counts: map<ConnId, nat>, sender: ConnId, message: string, bump: bool)
    requires UnreadAreIncoming(messages, counts)
    ensures UnreadAreIncoming(AppendMessage(messages, sender, ChatMessage(sender, message)),
                              if bump then Bump(counts, sender) else counts)
  {
    var messages' := AppendMessage(messages, sender, ChatMessage(sender, message));
    var counts' := if bump then Bump(counts, sender) else counts;
    AppendMessageSpec(messages, sender, ChatMessage(sender, message));
    forall p | p in counts'
      ensures counts'[p] <= |Conversation(messages', p)|
      ensures forall i :: |Conversation(messages', p)| - counts'[p] <= i < |Conversation(messages', p)| ==>
        Conversation(messages', p)[i].senderId == p
    {
      if p == sender {
        var c, c' := Conversation(messages, p), Conversation(messages', p);
        assert c' == c + [ChatMessage(sender, message)];
        forall i | |c'| - counts'[p] <= i < |c'| ensures c'[i].senderId == p {
          if i < |c| { assert c'[i] == c[i]; }
        }
      }
    }
  }

  /** The user's own message goes to the open conversation, whose count is 0, so the badges stay honest. */
  lemma SendKeepsUnreadIncoming(messages: map<ConnId, seq<ChatMessage>>, counts: map<ConnId, nat>, peer: ConnId, message: string)
    requires UnreadAreIncoming(messages, counts)
    requires Unread(counts, peer) == 0
    ensures UnreadAreIncoming(AppendMessage(messages, peer, ChatMessage("me", message)), counts)
  {
    AppendMessageSpec(messages, peer, ChatMessage("me", message));
  }

  /** The widget's state, one field per React state variable, plus what it has emitted. */
  class ChatWidget {
    /** The name announced to the relay (`user.name`). */
    const userName: string
    var isOpen: bool
    var messages: map<ConnId, seq<ChatMessage>>
    var inputMessage: string
    var onlineUsers: seq<Entry>
    var currentChat: Option<ConnId>
    var activeUser: Option<ConnId>
    var unreadCounts: map<ConnId, nat>
    /** Every event sent to the relay, oldest first. */
    var emitted: seq<ClientEmit>

    /**
     * The highlighted peer is the open conversation, the open conversation
     * has no unread badge, and every badge counts messages that are there.
     */
    ghost predicate Valid()
      reads this
    {
      && activeUser == currentChat
      && (currentChat.Some? ==> Unread(unreadCounts, currentChat.value) == 0)
      && UnreadAreIncoming(messages, unreadCounts)
    }

    /** The widget mounts closed, with nothing received and no conversation open. */
    constructor (userName: string)
      ensures Valid()
      ensures this.userName == userName
      ensures !isOpen && messages == map[] && inputMessage == "" && onlineUsers == []
      ensures currentChat == None && activeUser == None && unreadCounts == map[] && emitted == []
    {
      this.userName := userName;
      isOpen, messages, inputMessage, onlineUsers := false, map[], "", [];
      currentChat, activeUser, unreadCounts, emitted := None, None, map[], [];
    }

    /** `toggleModal`: flips the modal and announces the user only when it opens. */
    method ToggleModal()
      modifies this`isOpen, this`emitted
      ensures isOpen == !old(isOpen)
      ensures emitted == old(emitted) + (if old(isOpen) then [] else [AnnounceUser(userName)])
    {
      if !isOpen {
        emitted := emitted + [AnnounceUser(userName)];
      }
      isOpen := !isOpen;
    }

    /** The `receive_message` handler. */
    method OnReceiveMessage(senderId: ConnId, message: string)
      requires Valid()
      modifies this`messages, this`unreadCounts
      ensures Valid()
      ensures messages == AppendMessage(old(messages), senderId, ChatMessage(senderId, message))
      ensures unreadCounts == if currentChat != Some(senderId) then Bump(old(unreadCounts), senderId) else old(unreadCounts)
    {
      var bump := currentChat != Some(senderId);
      ReceiveKeepsUnreadIncoming(messages, unreadCounts, senderId, message, bump);
      messages := AppendMessage(messages, senderId, ChatMessage(senderId, message));
      if bump {
        BumpSpec(unreadCounts, senderId);
        unreadCounts := Bump(unreadCounts, senderId);
      }
    }

    /** The `online_users` handler. */
    method OnOnlineUsers(users: seq<Entry>)
      modifies this`onlineUsers
      ensures onlineUsers == VisiblePeers(users, userName)
    {
      onlineUsers := VisiblePeers(users, userName);
    }

    /** The text box's `onChange`. */
    method SetInput(text: string)
      modifies this`inputMessage
      ensures inputMessage == text
    {
      inputMessage := text;
    }

    /**
     * `sendMessage`: with a non-blank input and an open conversation, emits
     * the untrimmed input once to that peer, records it as the user's own
     * message and clears the box; otherwise does nothing.
     */
    method SendMessage()
      requires Valid()
      modifies this`messages, this`inputMessage, this`emitted
      ensures Valid()
      ensures CanSend(old(inputMessage), currentChat) ==>
        && emitted == old(emitted) + [PrivateMessage(old(inputMessage), currentChat.value)]
        && messages == AppendMessage(old(messages), currentChat.value, ChatMessage("me", old(inputMessage)))
        && inputMessage == ""
      ensures !CanSend(old(inputMessage), currentChat) ==>
        emitted == old(emitted) && messages == old(messages) && inputMessage == old(inputMessage)
    {
      if !IsBlank(inputMessage) && currentChat.Some? && currentChat.value != "" {
        var peer := currentChat.value;
        emitted := emitted + [PrivateMessage(inputMessage, peer)];
        SendKeepsUnreadIncoming(messages, unreadCounts, peer, inputMessage);
        messages := AppendMessage(messages, peer, ChatMessage("me", inputMessage));
        inputMessage := "";
      }
    }

    /** `startPrivateChat`: opens and highlights the peer's conversation and clears its badge. */
    method StartPrivateChat(peer: ConnId)
      requires Valid()
      modifies this`currentChat, this`activeUser, this`unreadCounts
      ensures Valid()
      ensures currentChat == Some(peer) && activeUser == Some(peer)
      ensures unreadCounts == old(unreadCounts)[peer := 0]
    {
      currentChat := Some(peer);
      activeUser := Some(peer);
      unreadCounts := unreadCounts[peer := 0];
    }
  }
}
