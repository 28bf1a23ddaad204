/** The purging deduplication table, proved against the full history of accepted messages. */
module Deduplication {
  import opened Models
  import Text

  /** str(n) */
  function Decimal(n: int): string
    decreases if n < 0 then 1 - n else n
  {
    if n < 0 then "-" + Decimal(-n)
    else if n < 10 then [('0' as int + n) as char]
    else Decimal(n / 10) + Decimal(n % 10)
  }

  /** What the current key is a digest of. The outer digest is injective, so keys are compared by
      this material; `digest` is the inner, private hash. */
  function Key(m: InboundMessage, digest: string -> string): string {
    var source := m.sourceRoom.transport + ":" + m.sourceRoom.roomId + ":" + digest(m.sender) + ":";
    if Truthy(m.platformId) then "id:v2:" + source + m.platformId.value
    else "hash:v2:" + source + digest(Text.Normalize(m.text))
  }

  /** What the older key is a digest of; it is looked up and never stored. */
  function LegacyKey(m: InboundMessage, window: int): string
    requires window > 0
  {
    if Truthy(m.messageId) then
      "id:" + m.transport + ":" + m.senderId + ":" + Decimal(m.channelIndex) + ":" + m.messageId.value
    else
      "hash:" + m.transport + ":" + m.senderId + ":" + Decimal(m.channelIndex) + ":"
      + Decimal(m.receivedAt / window) + ":" + Text.Strip(m.text)
  }

  datatype Acceptance = Acceptance(message: InboundMessage, key: string, at: Time)

  /** This key was accepted at a time whose window is still open at `now`. */
  ghost predicate Recent(history: seq<Acceptance>, key: string, now: Time, window: Time) {
    exists i :: 0 <= i < |history| && history[i].key == key && now <= history[i].at + window
  }

  /** Two acceptances of one key are more than the window apart. */
  ghost predicate Spaced(history: seq<Acceptance>, window: Time) {
    forall i, j | 0 <= i < j < |history| && history[i].key == history[j].key ::
      history[j].at > history[i].at + window
  }

  /** Acceptances happen in time order, none of them after `clock`. */
  ghost predicate Ordered(history: seq<Acceptance>, clock: Time) {
    && (forall i | 0 <= i < |history| :: history[i].at <= clock)
    && (forall i, j | 0 <= i < j < |history| :: history[i].at <= history[j].at)
  }

  /** When this key was last accepted. */
  ghost function LastAt(history: seq<Acceptance>, key: string): Option<Time> {
    if history == [] then None
    else
      var last := history[|history| - 1];
      if last.key == key then Some(last.at) else LastAt(history[..|history| - 1], key)
  }

  lemma {:induction false} RecentIsLast(history: seq<Acceptance>, key: string, clock: Time, now: Time, window: Time)
    requires Ordered(history, clock)
    ensures Recent(history, key, now, window)
      <==> LastAt(history, key).Some? && now <= LastAt(history, key).value + window
  {
    if history != [] {
      var n := |history| - 1;
      RecentIsLast(history[..n], key, clock, now, window);
      if i :| 0 <= i < |history| && history[i].key == key && now <= history[i].at + window {
        if i < n {
          assert history[..n][i] == history[i];
        }
      }
      if Recent(history[..n], key, now, window) {
        var i :| 0 <= i < n && history[..n][i].key == key && now <= history[..n][i].at + window;
        assert history[i] == history[..n][i];
      }
    }
  }

  /** The rows whose expiry has not passed are the last acceptances whose window is open. */
  ghost predicate Agrees(table: map<string, Time>, history: seq<Acceptance>, clock: Time, window: Time) {
    forall k {:trigger LastAt(history, k)} :: RowAgrees(table, k, LastAt(history, k), clock, window)
  }

  ghost predicate RowAgrees(table: map<string, Time>, k: string, last: Option<Time>, clock: Time, window: Time) {
    && (k in table && clock <= table[k] ==> last == Some(table[k] - window))
    && (last.Some? && clock <= last.value + window ==> k in table && table[k] == last.value + window)
  }

  function Purged(table: map<string, Time>, now: Time): map<string, Time> {
    map k | k in table && !(table[k] < now) :: table[k]
  }

  lemma PurgeAgrees(table: map<string, Time>, history: seq<Acceptance>, clock: Time, now: Time, window: Time)
    requires Agrees(table, history, clock, window) && clock <= now
    ensures Agrees(table, history, now, window) && Agrees(Purged(table, now), history, now, window)
  {
  }

  /** In a table just purged, a key is present exactly when it is recent. */
  lemma PresentIsRecent(table: map<string, Time>, history: seq<Acceptance>, now: Time, window: Time, key: string)
    requires Agrees(table, history, now, window) && Ordered(history, now)
    requires forall k | k in table :: now <= table[k]
    ensures key in table <==> Recent(history, key, now, window)
  {
    RecentIsLast(history, key, now, now, window);
    assert RowAgrees(table, key, LastAt(history, key), now, window);
  }

  lemma InsertAgrees(table: map<string, Time>, history: seq<Acceptance>, a: Acceptance, window: Time)
    requires Agrees(table, history, a.at, window) && Ordered(history, a.at)
    ensures Agrees(table[a.key := a.at + window], history + [a], a.at, window) && Ordered(history + [a], a.at)
  {
    forall k
      ensures RowAgrees(table[a.key := a.at + window], k, LastAt(history + [a], k), a.at, window)
    {
      assert (history + [a])[..|history|] == history;
      assert RowAgrees(table, k, LastAt(history, k), a.at, window);
    }
  }

  lemma InsertSpaced(history: seq<Acceptance>, a: Acceptance, window: Time)
    requires Spaced(history, window) && !Recent(history, a.key, a.at, window)
    ensures Spaced(history + [a], window)
  {
  }

  class Deduplicator {
    const window: int
    const digest: string -> string
    /** Key to expiry time. */
    var table: map<string, Time>
    ghost var accepted: seq<Acceptance>
    ghost var clock: Time

    ghost predicate Valid()
      reads this
    {
      && window > 0
      && Agrees(table, accepted, clock, window as real)
      && Ordered(accepted, clock) && Spaced(accepted, window as real) && Keyed(accepted, digest)
    }

    constructor (window: int, digest: string -> string, ghost start: Time)
      requires window > 0
      ensures Valid() && accepted == [] && clock == start && this.window == window && this.digest == digest
    {
      this.window := window;
      this.digest := digest;
      table := map[];
      accepted := [];
      clock := start;
    }

    /** `None` is a storage error, which leaves the table as it was. Otherwise a message is reported
        as seen exactly when its key, or its older key, was accepted within the window; for every
        transport name but those that read as the newer format, exactly when its own key was.
        A message that is not seen is accepted now; one that is seen leaves every window alone. */
    method SeenOrStore(message: InboundMessage, now: Time, fails: bool) returns (seen: Option<bool>)
      requires Valid() && clock <= now
      modifies this
      ensures Valid() && clock == now
      ensures seen.None? <==> fails
      ensures seen.Some? ==> (seen.value <==>
        Recent(old(accepted), Key(message, digest), now, window as real)
        || Recent(old(accepted), LegacyKey(message, window), now, window as real))
      ensures seen.Some? && !ReadsAsV2(message.transport) ==>
        (seen.value <==> Recent(old(accepted), Key(message, digest), now, window as real))
      ensures seen.Some? && GoodDigest(digest) && IsDaemons(message) && AllDaemons(old(accepted)) ==>
        (seen.value <==> SameAccepted(old(accepted), message, now, window as real))
      ensures accepted == if seen == Some(false)
        then old(accepted) + [Acceptance(message, Key(message, digest), now)] else old(accepted)
    {
      var key := Key(message, digest);
      var legacy := LegacyKey(message, window);
      if !ReadsAsV2(message.transport) {
        LegacyNotRecent(accepted, message, now, window, digest);
      }
      if GoodDigest(digest) && IsDaemons(message) && AllDaemons(accepted) {
        RecentIsSameAccepted(accepted, message, digest, now, window as real);
        DaemonsTransportIsPlain();
      }
      if fails {
        PurgeAgrees(table, accepted, clock, now, window as real);
        clock := now;
        return None;
      }
      var r := StoreKey([key, legacy], now, Acceptance(message, key, now));
      return Some(r);
    }

    /** The transaction: purge, look every key up, insert the first when none is there. */
    method StoreKey(keys: seq<string>, now: Time, ghost a: Acceptance) returns (seen: bool)
      requires |keys| == 2 && a.key == keys[0] && a.at == now && clock <= now
      requires Agrees(table, accepted, clock, window as real)
      requires Ordered(accepted, clock) && Spaced(accepted, window as real)
      modifies this
      ensures Agrees(table, accepted, now, window as real) && clock == now
      ensures Ordered(accepted, clock) && Spaced(accepted, window as real)
      ensures seen <==>
        Recent(old(accepted), keys[0], now, window as real) || Recent(old(accepted), keys[1], now, window as real)
      ensures accepted == if seen then old(accepted) else old(accepted) + [a]
      ensures table == if seen then Purged(old(table), now)
        else Purged(old(table), now)[keys[0] := now + window as real]
      ensures !seen ==> keys[0] !in Purged(old(table), now)
    {
      PurgeAgrees(table, accepted, clock, now, window as real);
      table := Purged(table, now);
      clock := now;
      PresentIsRecent(table, accepted, now, window as real, keys[0]);
      PresentIsRecent(table, accepted, now, window as real, keys[1]);
      var i := 0;
      while i < |keys|
        invariant i <= |keys|
        invariant forall j | 0 <= j < i :: keys[j] !in table
      {
        if keys[i] in table {
          return true;
        }
        i := i + 1;
      }
      assert keys[0] !in table && keys[1] !in table;
      InsertAgrees(table, accepted, a, window as real);
      InsertSpaced(accepted, a, window as real);
      table := table[keys[0] := now + window as real];
      accepted := accepted + [a];
      return false;
    }
  }

  ghost predicate Keyed(history: seq<Acceptance>, digest: string -> string) {
    forall i | 0 <= i < |history| :: history[i].key == Key(history[i].message, digest)
  }

  lemma LegacyNotRecent(history: seq<Acceptance>, m: InboundMessage, now: Time, window: int, digest: string -> string)
    requires window > 0 && Keyed(history, digest) && !ReadsAsV2(m.transport)
    ensures !Recent(history, LegacyKey(m, window), now, window as real)
  {
    LegacyKeyNeverCurrent(m, window, digest);
  }

  /** Transport names whose older keys begin like the newer ones. */
  predicate ReadsAsV2(transport: string) {
    transport == "v2" || "v2:" <= transport
  }

  /** Unless its transport reads as the newer format, a message's older key is nobody's current
      key, so looking it up never finds a row that this table stored. */
  lemma LegacyKeyNeverCurrent(m: InboundMessage, window: int, digest: string -> string)
    requires window > 0
    ensures !ReadsAsV2(m.transport) ==> forall other :: LegacyKey(m, window) != Key(other, digest)
  {
    if !ReadsAsV2(m.transport) {
      var legacy := LegacyKey(m, window);
      var tag := if Truthy(m.messageId) then "id:" else "hash:";
      LegacyPrefix(m, window);
      forall other
        ensures legacy != Key(other, digest)
      {
        var tag' := if Truthy(other.platformId) then "id:" else "hash:";
        KeyPrefix(other, digest);
        assert legacy[0] == tag[0] && Key(other, digest)[0] == tag'[0];
        if tag == tag' {
          DifferentAfter(tag, m.transport + ":", legacy, Key(other, digest));
        }
      }
    }
  }

  lemma LegacyPrefix(m: InboundMessage, window: int)
    requires window > 0
    ensures (if Truthy(m.messageId) then "id:" else "hash:") + (m.transport + ":") <= LegacyKey(m, window)
  {
    var tag := if Truthy(m.messageId) then "id:" else "hash:";
    assert tag + (m.transport + ":") == tag + m.transport + ":";
  }

  lemma KeyPrefix(m: InboundMessage, digest: string -> string)
    ensures (if Truthy(m.platformId) then "id:" else "hash:") + "v2:" <= Key(m, digest)
  {
  }

  lemma DifferentAfter(tag: string, transport: string, legacy: string, key: string)
    requires transport != "" && transport[|transport| - 1] == ':' && !ReadsAsV2(transport[..|transport| - 1])
    requires tag + transport <= legacy && tag + "v2:" <= key
    ensures legacy != key
  {
    var n := |tag|;
    assert key[n] == 'v' && key[n + 1] == '2' && key[n + 2] == ':';
    assert forall i | 0 <= i < |transport| :: legacy[n + i] == transport[i];
    assert |transport| >= 3 ==> (transport[..3] == "v2:" <==> "v2:" <= transport);
  }

  /** The exception is real: whatever the inner hash, a message of a transport that reads as the
      newer format can carry an older key that is the current key of another message, from another
      room, and is then dropped as a repeat. */
  lemma LegacyKeyCanCollide(transport: string, digest: string -> string, window: int)
    returns (dropped: InboundMessage, stored: InboundMessage)
    requires window > 0 && ReadsAsV2(transport)
    ensures Collides(dropped, stored, digest, window)
    ensures dropped.transport == transport && stored.sourceRoom != dropped.sourceRoom
  {
    var of := if transport == "v2" then "m" else transport[3..];
    var room, other := RoomRef(of, "r"), RoomRef(transport, "other");
    stored := InboundMessage(of, Some("0:x"), "s", 0, "", 0, room, room, "s", Some("0:x"), 0, false);
    var source := if transport == "v2" then "m:r:" + digest("s") else "r:" + digest("s");
    dropped := InboundMessage(transport, Some("x"), source, 0, "", 0, other, other, source, Some("x"), 1, false);
    SameMaterial(transport, of, digest("s"), source);
    assert Decimal(0) == "0";
  }

  lemma SameMaterial(transport: string, of: string, sender: string, source: string)
    requires ReadsAsV2(transport)
    requires of == if transport == "v2" then "m" else transport[3..]
    requires source == if transport == "v2" then "m:r:" + sender else "r:" + sender
    ensures "id:v2:" + (of + ":" + "r" + ":" + sender + ":") + "0:x"
      == "id:" + transport + ":" + source + ":" + "0" + ":" + "x"
  {
    if transport == "v2" {
      assert "id:" + transport + ":" + source == "id:v2:" + (of + ":" + "r" + ":" + sender);
    } else {
      assert transport == "v2:" + of;
      assert "id:" + transport + ":" + source == "id:v2:" + (of + ":" + "r" + ":" + sender);
    }
  }

  predicate Collides(dropped: InboundMessage, stored: InboundMessage, digest: string -> string, window: int)
    requires window > 0
  {
    LegacyKey(dropped, window) == Key(stored, digest)
  }

  /** The older keys of a transport can be current keys exactly when its name reads as the newer
      format. */
  lemma LegacyKeysCollideExactly(transport: string, digest: string -> string, window: int)
    requires window > 0
    ensures (exists dropped: InboundMessage, stored: InboundMessage ::
        dropped.transport == transport && Collides(dropped, stored, digest, window))
      <==> ReadsAsV2(transport)
  {
    if ReadsAsV2(transport) {
      var dropped, stored := LegacyKeyCanCollide(transport, digest, window);
      assert dropped.transport == transport && Collides(dropped, stored, digest, window);
    } else {
      forall dropped: InboundMessage, stored: InboundMessage | dropped.transport == transport
        ensures !Collides(dropped, stored, digest, window)
      {
        LegacyKeyNeverCurrent(dropped, window, digest);
      }
    }
  }

  /** The daemon's transport does not, so it is never hit: its older keys are nobody's current keys. */
  lemma DaemonNeverCollides(m: InboundMessage, other: InboundMessage, digest: string -> string, window: int)
    requires window > 0 && m.transport == MESHCORE
    ensures !Collides(m, other, digest, window)
  {
    DaemonsTransportIsPlain();
    LegacyKeyNeverCurrent(m, window, digest);
  }

  /** Without ids, messages of one sender in one room share a key exactly when the digests of
      their normalised texts agree; in particular when the texts differ only in whitespace. */
  lemma WhitespaceSharesKey(a: InboundMessage, b: InboundMessage, digest: string -> string)
    requires !Truthy(a.platformId) && !Truthy(b.platformId)
    requires a.sourceRoom == b.sourceRoom && a.sender == b.sender
    requires forall s, t | digest(s) == digest(t) :: s == t
    ensures Key(a, digest) == Key(b, digest) <==> Text.Words(a.text) == Text.Words(b.text)
  {
    Text.NormalizeSameWords(a.text, b.text);
    var source := "hash:v2:" + (a.sourceRoom.transport + ":" + a.sourceRoom.roomId + ":" + digest(a.sender) + ":");
    var da, db := digest(Text.Normalize(a.text)), digest(Text.Normalize(b.text));
    assert Key(a, digest) == source + da && Key(b, digest) == source + db;
    assert (source + da)[|source|..] == da && (source + db)[|source|..] == db;
  }

  // What shares a key

  lemma SamePrefix(p: string, x: string, y: string)
    ensures p + x == p + y <==> x == y
  {
    assert (p + x)[|p|..] == x && (p + y)[|p|..] == y;
  }

  /** A digest without colons that no two texts share. */
  ghost predicate GoodDigest(digest: string -> string) {
    (forall s, t | digest(s) == digest(t) :: s == t) && (forall s :: NoColon(digest(s)))
  }

  /** The material of a key after its tag and room. */
  function Rest(m: InboundMessage, digest: string -> string): string {
    if Truthy(m.platformId) then m.platformId.value else digest(Text.Normalize(m.text))
  }

  function Tag(m: InboundMessage): string {
    if Truthy(m.platformId) then "id:v2:" else "hash:v2:"
  }

  lemma KeyParts(m: InboundMessage, digest: string -> string)
    ensures Key(m, digest)
      == Tag(m) + (m.sourceRoom.transport + ":" + m.sourceRoom.roomId + ":")
        + (digest(m.sender) + (":" + Rest(m, digest)))
  {
    var room := m.sourceRoom.transport + ":" + m.sourceRoom.roomId + ":";
    var source := room + digest(m.sender) + ":";
    assert Key(m, digest) == Tag(m) + source + Rest(m, digest);
    assert source + Rest(m, digest) == room + (digest(m.sender) + (":" + Rest(m, digest)));
    assert Tag(m) + source + Rest(m, digest) == Tag(m) + (source + Rest(m, digest));
  }

  /** A message with an id and one without never share a key. */
  lemma IdsAndTextsNeverShare(a: InboundMessage, b: InboundMessage, digest: string -> string)
    requires Truthy(a.platformId) && !Truthy(b.platformId)
    ensures Key(a, digest) != Key(b, digest)
  {
    KeyPrefix(a, digest);
    KeyPrefix(b, digest);
    assert Key(a, digest)[0] == 'i' && Key(b, digest)[0] == 'h';
  }

  /** Messages of one room that share a key come from one sender. */
  lemma SendersNeverShare(a: InboundMessage, b: InboundMessage, digest: string -> string)
    requires GoodDigest(digest) && a.sourceRoom == b.sourceRoom && Key(a, digest) == Key(b, digest)
    ensures a.sender == b.sender && (Truthy(a.platformId) <==> Truthy(b.platformId))
  {
    if Truthy(a.platformId) && !Truthy(b.platformId) {
      IdsAndTextsNeverShare(a, b, digest);
    } else if Truthy(b.platformId) && !Truthy(a.platformId) {
      IdsAndTextsNeverShare(b, a, digest);
    } else {
      var head := Tag(a) + (a.sourceRoom.transport + ":" + a.sourceRoom.roomId + ":");
      KeyParts(a, digest);
      KeyParts(b, digest);
      var da, db := digest(a.sender), digest(b.sender);
      SamePrefix(head, da + (":" + Rest(a, digest)), db + (":" + Rest(b, digest)));
      SplitAtColon(da, Rest(a, digest), db, Rest(b, digest));
    }
  }

  /** One sender's messages of one room with ids share a key exactly when the ids are equal. */
  lemma IdsShareExactly(a: InboundMessage, b: InboundMessage, digest: string -> string)
    requires Truthy(a.platformId) && Truthy(b.platformId)
    requires a.sourceRoom == b.sourceRoom && a.sender == b.sender
    ensures Key(a, digest) == Key(b, digest) <==> a.platformId == b.platformId
  {
    var head := Tag(a) + (a.sourceRoom.transport + ":" + a.sourceRoom.roomId + ":");
    var sender := digest(a.sender) + ":";
    KeyParts(a, digest);
    KeyParts(b, digest);
    SamePrefix(head, digest(a.sender) + (":" + Rest(a, digest)), digest(b.sender) + (":" + Rest(b, digest)));
    assert digest(a.sender) + (":" + Rest(a, digest)) == sender + Rest(a, digest);
    assert digest(b.sender) + (":" + Rest(b, digest)) == sender + Rest(b, digest);
    SamePrefix(sender, Rest(a, digest), Rest(b, digest));
  }

  // The daemon's messages

  /** The room of a channel, as the transport names it. */
  function ChannelRoom(channel: int): RoomRef {
    RoomRef(MESHCORE, MESHCORE + ":channel:" + Decimal(channel))
  }

  /** A message as the daemon's transport makes it: from its own channel, and always with an id. */
  predicate IsDaemons(m: InboundMessage) {
    m.transport == MESHCORE && m.sourceRoom == ChannelRoom(m.channelIndex) && Truthy(m.platformId)
  }

  ghost predicate AllDaemons(history: seq<Acceptance>) {
    forall i | 0 <= i < |history| :: IsDaemons(history[i].message)
  }

  predicate NoColon(s: string) {
    forall i | 0 <= i < |s| :: s[i] != ':'
  }

  lemma {:induction false} DecimalHasNoColon(n: int)
    ensures NoColon(Decimal(n))
    decreases if n < 0 then 1 - n else n
  {
    if n < 0 {
      DecimalHasNoColon(-n);
    } else if n >= 10 {
      DecimalHasNoColon(n / 10);
      DecimalHasNoColon(n % 10);
    }
  }

  lemma SplitAtColon(a: string, x: string, b: string, y: string)
    requires NoColon(a) && NoColon(b) && a + (":" + x) == b + (":" + y)
    ensures a == b && x == y
  {
    var s, t := a + (":" + x), b + (":" + y);
    assert s[|a|] == ':' && t[|b|] == ':';
    assert forall i | 0 <= i < |a| :: s[i] == a[i];
    assert forall i | 0 <= i < |b| :: t[i] == b[i];
    assert |a| == |b|;
    assert a == s[..|a|] && b == t[..|b|] && ":" + x == s[|a|..] && ":" + y == t[|b|..];
    assert x == (":" + x)[1..] && y == (":" + y)[1..];
  }

  /** The key of a daemon's message: a constant, its channel, and the rest. */
  lemma DaemonKeyParts(m: InboundMessage, digest: string -> string)
    requires IsDaemons(m)
    ensures Key(m, digest) == "id:v2:" + (MESHCORE + ":" + MESHCORE + ":channel:")
      + (Decimal(m.channelIndex) + (":" + (digest(m.sender) + (":" + Rest(m, digest)))))
  {
    KeyParts(m, digest);
    var head, n := MESHCORE + ":" + MESHCORE + ":channel:", Decimal(m.channelIndex);
    var tail := digest(m.sender) + (":" + Rest(m, digest));
    assert m.sourceRoom.transport + ":" + m.sourceRoom.roomId + ":" == head + (n + ":");
    assert "id:v2:" + (head + (n + ":")) + tail == "id:v2:" + head + (n + (":" + tail));
  }

  /** The same room, sender and id. */
  predicate SameMessage(a: InboundMessage, b: InboundMessage) {
    a.sourceRoom == b.sourceRoom && a.sender == b.sender && a.platformId == b.platformId
  }

  lemma RoomsNeverShare(a: InboundMessage, b: InboundMessage, digest: string -> string)
    requires IsDaemons(a) && IsDaemons(b) && Key(a, digest) == Key(b, digest)
    ensures a.sourceRoom == b.sourceRoom
  {
    var head := "id:v2:" + (MESHCORE + ":" + MESHCORE + ":channel:");
    var x, y := digest(a.sender) + (":" + Rest(a, digest)), digest(b.sender) + (":" + Rest(b, digest));
    DaemonKeyParts(a, digest);
    DaemonKeyParts(b, digest);
    SamePrefix(head, Decimal(a.channelIndex) + (":" + x), Decimal(b.channelIndex) + (":" + y));
    DecimalHasNoColon(a.channelIndex);
    DecimalHasNoColon(b.channelIndex);
    SplitAtColon(Decimal(a.channelIndex), x, Decimal(b.channelIndex), y);
  }

  /** Two of the daemon's messages share a key exactly when room, sender and id agree. */
  lemma DaemonsShareExactly(a: InboundMessage, b: InboundMessage, digest: string -> string)
    requires GoodDigest(digest) && IsDaemons(a) && IsDaemons(b)
    ensures Key(a, digest) == Key(b, digest) <==> SameMessage(a, b)
  {
    if Key(a, digest) == Key(b, digest) {
      RoomsNeverShare(a, b, digest);
      SendersNeverShare(a, b, digest);
    }
    if a.sourceRoom == b.sourceRoom && a.sender == b.sender {
      IdsShareExactly(a, b, digest);
    }
  }

  /** A message of this room, sender and id was accepted at a time whose window is still open. */
  ghost predicate SameAccepted(history: seq<Acceptance>, m: InboundMessage, now: Time, window: Time) {
    exists i :: 0 <= i < |history| && SameMessage(history[i].message, m) && now <= history[i].at + window
  }

  lemma RecentIsSameAccepted(history: seq<Acceptance>, m: InboundMessage, digest: string -> string,
                             now: Time, window: Time)
    requires GoodDigest(digest) && Keyed(history, digest) && AllDaemons(history) && IsDaemons(m)
    ensures Recent(history, Key(m, digest), now, window) <==> SameAccepted(history, m, now, window)
  {
    forall i | 0 <= i < |history|
      ensures history[i].key == Key(m, digest) <==> SameMessage(history[i].message, m)
    {
      DaemonsShareExactly(history[i].message, m, digest);
    }
  }

  lemma DaemonsTransportIsPlain()
    ensures !ReadsAsV2(MESHCORE)
  {
    assert MESHCORE[0] == 'h';
  }
}
