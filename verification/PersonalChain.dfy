/** A user's hash chain of consented events: append, annotate, persist one file per event, reload from the sorted
    directory listing, verify. Hashing is a term algebra over the hashed fields. */
module PersonalChain {
  import opened Wrappers
  import opened FileNames

  datatype EventType =
    | Prompt | Upload | BuildSuccess | BuildFailure | LlmArtifact | StripeReceipt | SolanaAnchor | OtherEvent(name: string)

  datatype Privacy = Private | Protected | Public | Anonymous

  /** SHA-256 of an event's data. */
  datatype Digest = Sha256(text: string)

  /** SHA-256 of user, type, time and data hash. */
  datatype Token = ConsentToken(userId: string, eventType: EventType, issuedAt: real, dataHash: Digest)

  datatype Hash =
    | Genesis
    | Hashed(eventId: string, eventType: EventType, timestamp: real, dataHash: Digest, privacy: Privacy,
             consentToken: Token, sequence: nat, previous: Hash)

  datatype ChainEvent = ChainEvent(
    eventId: string, eventType: EventType, timestamp: real, dataHash: Digest, preview: string, privacy: Privacy,
    consentToken: Token, sequence: nat, previousHash: Hash, metadata: string,
    notary: Option<string>, stripe: Option<string>, anchor: Option<string>)

  function FullHash(e: ChainEvent): Hash {
    Hashed(e.eventId, e.eventType, e.timestamp, e.dataHash, e.privacy, e.consentToken, e.sequence, e.previousHash)
  }

  /** A value in the consent policy: a flag, a privacy label, or any other text. */
  datatype Setting = Flag(on: bool) | Label(privacy: Privacy) | Text(text: string)

  type Policy = map<string, Setting>

  const DEFAULT_POLICY: Policy := map[
    "auto_capture_prompts" := Flag(false), "auto_capture_uploads" := Flag(false), "auto_capture_builds" := Flag(true),
    "default_privacy" := Label(Private), "public_anchor_allowed" := Flag(false), "monetization_enabled" := Flag(false)]

  datatype File = EventFile(event: ChainEvent) | PolicyFile(policy: Policy)

  datatype Chain = Chain(
    userId: string, events: seq<ChainEvent>, sequence: nat, lastHash: Hash, policy: Policy, files: map<string, File>)

  function EmptyChain(userId: string): Chain { Chain(userId, [], 0, Genesis, DEFAULT_POLICY, map[]) }

  predicate Truthy(s: Setting) {
    match s
    case Flag(on) => on
    case Label(_) => true
    case Text(t) => t != ""
  }

  /** The policy key that governs a type; the others need no consent. */
  function ConsentKey(t: EventType): Option<string> {
    match t
    case Prompt => Some("auto_capture_prompts")
    case Upload => Some("auto_capture_uploads")
    case BuildSuccess => Some("auto_capture_builds")
    case BuildFailure => Some("auto_capture_builds")
    case LlmArtifact => Some("auto_capture_builds")
    case _ => None
  }

  predicate HasConsent(p: Policy, t: EventType) {
    var key := ConsentKey(t);
    key.None? || (key.value in p && Truthy(p[key.value]))
  }

  /** The label for an event logged without one; a setting that is no label raises. */
  function DefaultPrivacy(p: Policy): Option<Privacy> {
    if "default_privacy" !in p then Some(Private)
    else match p["default_privacy"] case Label(l) => Some(l) case _ => None
  }

  // ---- Transitions ----

  /** One log_event call: its arguments (the data as the text that is hashed) and its three clock readings. */
  datatype Capture = Capture(
    eventType: EventType, data: string, privacy: Option<Privacy>, metadata: string, consentOverride: bool,
    tokenTime: real, idTime: real, timestamp: real)

  predicate Consented(c: Chain, x: Capture) { x.consentOverride || HasConsent(c.policy, x.eventType) }

  function PrivacyOf(c: Chain, x: Capture): Option<Privacy> {
    if x.privacy.Some? then x.privacy else DefaultPrivacy(c.policy)
  }

  /** The call logs an event: there is consent, and the privacy label is one. */
  predicate Captured(c: Chain, x: Capture) { Consented(c, x) && PrivacyOf(c, x).Some? }

  function IntText(n: int): string { if n < 0 then "-" + Decimal(-n) else Decimal(n) }

  /** int(time * 1000): truncation toward zero. */
  function Millis(t: real): int { if t >= 0.0 then (t * 1000.0).Floor else -((-t * 1000.0).Floor) }

  function EventId(userId: string, time: real, sequence: nat): string {
    "evt-" + userId + "-" + IntText(Millis(time)) + "-" + Decimal(sequence)
  }

  function Preview(data: string): string { if |data| > 200 then data[..200] else data }

  function NewEvent(c: Chain, x: Capture): ChainEvent
    requires Captured(c, x)
  {
    ChainEvent(EventId(c.userId, x.idTime, c.sequence), x.eventType, x.timestamp, Sha256(x.data), Preview(x.data),
               PrivacyOf(c, x).value, ConsentToken(c.userId, x.eventType, x.tokenTime, Sha256(x.data)),
               c.sequence, c.lastHash, x.metadata, None, None, None)
  }

  function Persist(files: map<string, File>, e: ChainEvent): map<string, File> {
    files[EventName(e.sequence) := EventFile(e)]
  }

  function Log(c: Chain, x: Capture): Chain {
    if !Captured(c, x) then c
    else
      var e := NewEvent(c, x);
      c.(events := c.events + [e], sequence := c.sequence + 1, lastHash := FullHash(e), files := Persist(c.files, e))
  }

  /** Logging a receipt or an anchor sets one more field on the event in memory, after it was persisted. */
  function MarkLast(events: seq<ChainEvent>, stripe: Option<string>, anchor: Option<string>): seq<ChainEvent>
    requires events != []
  {
    var n := |events| - 1;
    var e := events[n];
    events[n := e.(stripe := if stripe.Some? then stripe else e.stripe, anchor := if anchor.Some? then anchor else e.anchor)]
  }

  function LogMarked(c: Chain, x: Capture, stripe: Option<string>, anchor: Option<string>): Chain {
    if !Captured(c, x) then c
    else
      var c' := Log(c, x);
      c'.(events := MarkLast(c'.events, stripe, anchor))
  }

  function IndexOf(events: seq<ChainEvent>, id: string): nat {
    if events == [] || events[0].eventId == id then 0 else 1 + IndexOf(events[1..], id)
  }

  function Attest(c: Chain, id: string, attestation: string): Chain {
    var k := IndexOf(c.events, id);
    if k >= |c.events| then c
    else
      var e := c.events[k].(notary := Some(attestation));
      c.(events := c.events[k := e], files := Persist(c.files, e))
  }

  /** dict.update: the given keys replace or join the stored ones. */
  function UpdatePolicy(c: Chain, updates: Policy): Chain {
    var p := c.policy + updates;
    c.(policy := p, files := c.files[POLICY_NAME := PolicyFile(p)])
  }

  // ---- Consent before capture ----

  /** The setting is there and counts as true. */
  predicate IsSet(p: Policy, key: string) {
    key in p && match p[key] case Flag(on) => on case Label(_) => true case Text(t) => t != ""
  }

  /** The setting that governs a type of event. */
  predicate Governs(key: string, t: EventType) {
    (key == "auto_capture_prompts" && t == Prompt) || (key == "auto_capture_uploads" && t == Upload)
    || (key == "auto_capture_builds" && t in {BuildSuccess, BuildFailure, LlmArtifact})
  }

  /** An event is logged exactly when the caller overrides or every setting that governs its type is set, and there is
      a privacy label to give it; otherwise nothing changes. */
  lemma CaptureExactly(c: Chain, x: Capture)
    ensures Log(c, x) != c <==>
      (x.consentOverride || forall key :: Governs(key, x.eventType) ==> IsSet(c.policy, key))
      && (x.privacy.Some? || "default_privacy" !in c.policy || c.policy["default_privacy"].Label?)
  {
    assert Log(c, x) != c <==> Captured(c, x) by {
      if Captured(c, x) { assert Log(c, x).sequence == c.sequence + 1; }
    }
    ConsentMeans(c.policy, x.eventType);
  }

  lemma ConsentMeans(p: Policy, t: EventType)
    ensures HasConsent(p, t) <==> forall key :: Governs(key, t) ==> IsSet(p, key)
  {
    assert t == Prompt ==> Governs("auto_capture_prompts", t);
    assert t == Upload ==> Governs("auto_capture_uploads", t);
    assert t in {BuildSuccess, BuildFailure, LlmArtifact} ==> Governs("auto_capture_builds", t);
  }

  /** What is logged: hash and first 200 characters of the data, the given or the policy's label, a token over user,
      type, time and hash, the next place in the chain; and one file for it. */
  lemma LoggedExactly(c: Chain, x: Capture)
    requires Log(c, x) != c
    ensures
      var c' := Log(c, x);
      |c'.events| == |c.events| + 1 && c'.events[..|c.events|] == c.events
      && c'.sequence == c.sequence + 1 && c'.userId == c.userId && c'.policy == c.policy
      && var e := c'.events[|c.events|];
      (e.eventType, e.timestamp, e.metadata, e.sequence, e.previousHash)
      == (x.eventType, x.timestamp, x.metadata, c.sequence, c.lastHash)
      && e.dataHash == Sha256(x.data) && e.consentToken == ConsentToken(c.userId, x.eventType, x.tokenTime, Sha256(x.data))
      && |e.preview| == (if |x.data| < 200 then |x.data| else 200) && e.preview <= x.data
      && e.privacy == (if x.privacy.Some? then x.privacy.value
                       else if "default_privacy" in c.policy then c.policy["default_privacy"].privacy else Private)
      && e.notary == e.stripe == e.anchor == None
      && c'.files == c.files[EventName(c.sequence) := EventFile(e)]
      && c'.lastHash == Hashed(e.eventId, e.eventType, e.timestamp, e.dataHash, e.privacy, e.consentToken, e.sequence,
                               e.previousHash)
  {
  }

  /** The id: user, milliseconds of the clock without the fraction, place in the chain. */
  lemma EventIdExactly(userId: string, seconds: nat, millis: nat, sequence: nat)
    requires millis < 1000
    ensures EventId(userId, seconds as real + millis as real / 1000.0, sequence)
      == "evt-" + userId + "-" + Decimal(1000 * seconds + millis) + "-" + Decimal(sequence)
  {
    var t := seconds as real + millis as real / 1000.0;
    assert t * 1000.0 == (1000 * seconds + millis) as real;
    assert Millis(t) == 1000 * seconds + millis;
  }

  /** The id names whole milliseconds, cut toward zero on either side of the epoch. */
  lemma MillisExactly(t: real)
    ensures t >= 0.0 ==> Millis(t) as real <= t * 1000.0 < Millis(t) as real + 1.0
    ensures t < 0.0 ==> Millis(t) as real - 1.0 < t * 1000.0 <= Millis(t) as real
    ensures forall n: int :: n < 0 ==> IntText(n) == "-" + Decimal(-n)
  {
  }

  /** A receipt or an anchor is set on the event just logged and nowhere else: not in its file, not in the hash. */
  lemma MarkedExactly(c: Chain, x: Capture, stripe: Option<string>, anchor: Option<string>)
    ensures
      var (plain, marked) := (Log(c, x), LogMarked(c, x, stripe, anchor));
      if Log(c, x) == c then marked == c
      else
        var n := |c.events|;
        |plain.events| == n + 1
        && marked == plain.(events := plain.events[n := plain.events[n].(stripe := stripe, anchor := anchor)])
  {
  }

  // ---- Reload ----

  predicate IsJson(name: string) { |name| >= 5 && name[|name| - 5..] == ".json" }

  function JsonNames(files: map<string, File>): set<string> { set n | n in files && IsJson(n) }

  /** The loop over the listing; a file that is not an event is skipped. */
  function LoadEvents(files: map<string, File>, names: seq<string>): seq<ChainEvent> {
    if names == [] then []
    else
      var n := |names| - 1;
      var before := LoadEvents(files, names[..n]);
      if names[n] in files && files[names[n]].EventFile? then before + [files[names[n]].event] else before
  }

  function NextSequence(events: seq<ChainEvent>): nat { if events == [] then 0 else events[|events| - 1].sequence + 1 }
  function TipHash(events: seq<ChainEvent>): Hash { if events == [] then Genesis else FullHash(events[|events| - 1]) }

  function LoadPolicy(files: map<string, File>): Policy {
    if POLICY_NAME in files && files[POLICY_NAME].PolicyFile? then files[POLICY_NAME].policy else DEFAULT_POLICY
  }

  /** A new object over an existing directory whose sorted listing is given. */
  function Reload(userId: string, files: map<string, File>, listing: seq<string>): Chain {
    var events := LoadEvents(files, listing);
    Chain(userId, events, NextSequence(events), TipHash(events), LoadPolicy(files), files)
  }

  ghost predicate IsListing(files: map<string, File>, listing: seq<string>) {
    StrictlySorted(listing) && Elements(listing) == JsonNames(files)
  }

  /** The listing names exactly the files that end in .json, so any other file in the directory is never read. */
  lemma ListedExactly(files: map<string, File>, name: string)
    ensures name in JsonNames(files) <==> name in files && exists stem :: name == stem + ".json"
  {
    if |name| >= 5 && name[|name| - 5..] == ".json" {
      assert name == name[..|name| - 5] + ".json";
    }
    if stem :| name == stem + ".json" {
      assert name[|name| - 5..] == ".json";
    }
  }

  // ---- Integrity ----

  function HashBefore(events: seq<ChainEvent>, i: nat): Hash
    requires i <= |events|
  {
    if i == 0 then Genesis else FullHash(events[i - 1])
  }

  predicate Linked(events: seq<ChainEvent>, i: nat)
    requires i < |events|
  {
    events[i].previousHash == HashBefore(events, i)
  }

  predicate Intact(events: seq<ChainEvent>) { forall i :: 0 <= i < |events| ==> Linked(events, i) }

  /** Replacing one event of an intact chain goes unnoticed exactly when its link is kept and either no hashed
      field changed or it is the last event. */
  lemma TamperingExactly(events: seq<ChainEvent>, i: nat, e: ChainEvent)
    requires Intact(events) && i < |events|
    ensures Intact(events[i := e]) <==>
      e.previousHash == events[i].previousHash && (FullHash(e) == FullHash(events[i]) || i == |events| - 1)
  {
    var t := events[i := e];
    var kept := e.previousHash == events[i].previousHash;
    assert Linked(events, i);
    assert Linked(t, i) <==> kept;
    if i + 1 < |events| {
      assert Linked(events, i + 1);
      assert Linked(t, i + 1) <==> FullHash(e) == FullHash(events[i]);
    }
    if kept && (FullHash(e) == FullHash(events[i]) || i == |events| - 1) {
      forall j | 0 <= j < |t| ensures Linked(t, j) {
        assert Linked(events, j);
      }
    }
  }

  /** No receipt or anchor was added after the event was last persisted. */
  predicate Persisted(e: ChainEvent) { (e.stripe.None? && e.anchor.None?) || e.notary.Some? }

  /** What is on disk of an event in memory: a notary attestation persists everything added before it, a receipt
      or an anchor alone is never written. */
  function Durable(e: ChainEvent): ChainEvent { if Persisted(e) then e else e.(stripe := None, anchor := None) }

  /** Position i holds sequence number i, under an event id that ends in it. */
  ghost predicate Placed(e: ChainEvent, i: nat) {
    e.sequence == i && exists prefix :: e.eventId == EndingIn(prefix, i)
  }

  function EndingIn(prefix: string, i: nat): string { prefix + "-" + Decimal(i) }

  ghost predicate InOrder(events: seq<ChainEvent>) {
    forall i :: 0 <= i < |events| ==> Placed(events[i], i)
  }

  ghost predicate Stored(files: map<string, File>, events: seq<ChainEvent>, i: nat)
    requires i < |events|
  {
    EventName(i) in files && files[EventName(i)] == EventFile(Durable(events[i]))
  }

  /** Only event files and the policy file are in the directory. */
  ghost predicate Known(files: map<string, File>, count: nat, name: string)
    requires name in files
  {
    (name == POLICY_NAME && files[name].PolicyFile?) || (exists i: nat :: i < count && name == EventName(i))
  }

  ghost predicate FilesMatch(files: map<string, File>, events: seq<ChainEvent>) {
    (forall i :: 0 <= i < |events| ==> Stored(files, events, i))
    && (forall name :: name in files ==> Known(files, |events|, name))
  }

  ghost predicate Inv(c: Chain) {
    Intact(c.events) && InOrder(c.events) && FilesMatch(c.files, c.events)
    && c.sequence == |c.events| && c.lastHash == HashBefore(c.events, |c.events|)
    && c.policy == LoadPolicy(c.files)
  }

  // ---- Each call keeps the invariant ----

  /** Storing what is durable of an event at its own position. */
  lemma StoreMatches(files: map<string, File>, events: seq<ChainEvent>, events': seq<ChainEvent>, e: ChainEvent, k: nat)
    requires FilesMatch(files, events) && |events| <= |events'| <= |events| + 1
    requires k < |events'| && (|events'| == |events| + 1 ==> k == |events|)
    requires e.sequence == k && e == Durable(events'[k])
    requires forall i :: 0 <= i < |events| && i != k ==> events'[i] == events[i]
    ensures FilesMatch(Persist(files, e), events') && LoadPolicy(Persist(files, e)) == LoadPolicy(files)
  {
    var files' := Persist(files, e);
    NameBeforePolicy(k);
    forall i | 0 <= i < |events'| ensures Stored(files', events', i) {
      if i != k {
        assert Stored(files, events, i);
        if EventName(i) == EventName(k) { NamesDistinct(i, k); }
      }
    }
    forall name | name in files' ensures Known(files', |events'|, name) {
      if name != EventName(k) { assert Known(files, |events|, name); }
    }
  }

  lemma LogKeeps(c: Chain, x: Capture, stripe: Option<string>, anchor: Option<string>)
    requires Inv(c)
    ensures Inv(Log(c, x)) && Inv(LogMarked(c, x, stripe, anchor))
  {
    if Captured(c, x) {
      var e := NewEvent(c, x);
      var plain, marked := c.events + [e], MarkLast(c.events + [e], stripe, anchor);
      StoreMatches(c.files, c.events, plain, e, |c.events|);
      StoreMatches(c.files, c.events, marked, e, |c.events|);
      assert e.eventId == EndingIn("evt-" + c.userId + "-" + IntText(Millis(x.idTime)), c.sequence);
      AppendIntact(c.events, plain);
      AppendIntact(c.events, marked);
    }
  }

  lemma AppendIntact(events: seq<ChainEvent>, events': seq<ChainEvent>)
    requires Intact(events) && InOrder(events) && |events'| == |events| + 1
    requires forall i :: 0 <= i < |events| ==> events'[i] == events[i]
    requires events'[|events|].previousHash == HashBefore(events, |events|) && Placed(events'[|events|], |events|)
    ensures Intact(events') && InOrder(events') && HashBefore(events', |events'|) == FullHash(events'[|events|])
  {
    forall i | 0 <= i < |events'| ensures Linked(events', i) {
      if i < |events| { assert Linked(events, i); }
    }
  }

  lemma {:induction false} IndexOfFinds(events: seq<ChainEvent>, id: string)
    ensures
      var k := IndexOf(events, id);
      k <= |events| && (k < |events| ==> events[k].eventId == id) && forall j :: 0 <= j < k ==> events[j].eventId != id
  {
    if !(events == [] || events[0].eventId == id) {
      IndexOfFinds(events[1..], id);
      forall j | 0 <= j < IndexOf(events, id) ensures events[j].eventId != id {
        if j > 0 { assert events[1..][j - 1].eventId != id; }
      }
    }
  }

  lemma AttestKeeps(c: Chain, id: string, attestation: string)
    requires Inv(c)
    ensures Inv(Attest(c, id, attestation))
  {
    var k := IndexOf(c.events, id);
    if k < |c.events| {
      var e := c.events[k].(notary := Some(attestation));
      StoreMatches(c.files, c.events, c.events[k := e], e, k);
      TamperingExactly(c.events, k, e);
    }
  }

  lemma PolicyKeeps(c: Chain, updates: Policy)
    requires Inv(c)
    ensures Inv(UpdatePolicy(c, updates))
  {
    var files := UpdatePolicy(c, updates).files;
    forall i | 0 <= i < |c.events| ensures Stored(files, c.events, i) {
      assert Stored(c.files, c.events, i);
      NameBeforePolicy(i);
    }
    forall name | name in files ensures Known(files, |c.events|, name) {
      if name != POLICY_NAME { assert Known(c.files, |c.events|, name); }
    }
  }

  // ---- Event ids ----

  lemma {:induction false} DecimalHasNoDash(n: nat)
    ensures '-' !in Decimal(n)
  {
    if n >= 10 { DecimalHasNoDash(n / 10); }
  }

  lemma LastDash(prefix: string, n: nat)
    ensures
      var t := EndingIn(prefix, n);
      |prefix| < |t| && t[|prefix|] == '-' && t[|prefix| + 1..] == Decimal(n) && forall k :: |prefix| < k < |t| ==> t[k] != '-'
  {
    hide Decimal;
    DecimalHasNoDash(n);
    var t := EndingIn(prefix, n);
    forall k | |prefix| < k < |t| ensures t[k] != '-' {
      assert t[k] == Decimal(n)[k - |prefix| - 1];
    }
  }

  lemma EndingDetermines(prefix: string, m: nat, prefix': string, n: nat)
    requires EndingIn(prefix, m) == EndingIn(prefix', n)
    ensures m == n
  {
    hide Decimal, EndingIn, Parse;
    LastDash(prefix, m);
    LastDash(prefix', n);
    assert |prefix| == |prefix'|;
    ParseDecimal(m);
    ParseDecimal(n);
  }

  /** Within one chain an event id names one event, so an attestation reaches the event it is meant for. */
  lemma EventIdsDistinct(c: Chain, i: nat, j: nat)
    requires Inv(c) && i < |c.events| && j < |c.events|
    ensures c.events[i].eventId == c.events[j].eventId <==> i == j
    ensures IndexOf(c.events, c.events[i].eventId) == i
  {
    hide EndingIn, Decimal, FilesMatch, Intact;
    assert Placed(c.events[i], i) && Placed(c.events[j], j);
    if c.events[i].eventId == c.events[j].eventId { IdNamesPosition(c, i, j); }
    IndexOfFinds(c.events, c.events[i].eventId);
    var k := IndexOf(c.events, c.events[i].eventId);
    if k < |c.events| { IdNamesPosition(c, i, k); }
  }

  lemma IdNamesPosition(c: Chain, i: nat, j: nat)
    requires Inv(c) && i < |c.events| && j < |c.events| && c.events[i].eventId == c.events[j].eventId
    ensures i == j
  {
    hide EndingIn, Decimal, FilesMatch, Intact;
    assert Placed(c.events[i], i) && Placed(c.events[j], j);
    var a :| c.events[i].eventId == EndingIn(a, i);
    var b :| c.events[j].eventId == EndingIn(b, j);
    EndingDetermines(a, i, b, j);
  }

  /** An attestation is set on the event it names and on its file, receipt and anchor included; an unknown id does
      nothing. */
  lemma AttestExactly(c: Chain, k: nat, unknown: string, attestation: string)
    requires Inv(c) && k < |c.events|
    ensures
      var e := c.events[k].(notary := Some(attestation));
      Attest(c, c.events[k].eventId, attestation)
      == c.(events := c.events[k := e], files := c.files[EventName(k) := EventFile(e)])
    ensures (forall i :: 0 <= i < |c.events| ==> c.events[i].eventId != unknown) ==> Attest(c, unknown, attestation) == c
  {
    hide EventName, FilesMatch, Intact, IndexOf;
    EventIdsDistinct(c, k, k);
    IndexOfFinds(c.events, unknown);
    assert Placed(c.events[k], k);
  }

  // ---- Reloading ----

  function Names(n: nat): (s: seq<string>)
    ensures |s| == n && forall i :: 0 <= i < n ==> s[i] == EventName(i)
  {
    seq(n, i requires 0 <= i => EventName(i))
  }

  lemma NamesAreJson(i: nat)
    ensures IsJson(EventName(i)) && IsJson(POLICY_NAME)
  {
    var n := EventName(i);
    assert n[|n| - 5..] == ".json";
    assert POLICY_NAME[|POLICY_NAME| - 5..] == ".json";
  }

  /** The listing a directory of at most 10^8 events has: the event files in sequence order, then the policy. */
  function Standard(files: map<string, File>, n: nat): seq<string> {
    Names(n) + if POLICY_NAME in files then [POLICY_NAME] else []
  }

  lemma StandardIsListing(files: map<string, File>, events: seq<ChainEvent>)
    requires FilesMatch(files, events) && |events| <= 100_000_000
    ensures IsListing(files, Standard(files, |events|))
  {
    var n, s := |events|, Standard(files, |events|);
    forall i, j | 0 <= i < j < |s| ensures Less(s[i], s[j]) {
      if j < n { NamesInOrder(i, j); } else { NameBeforePolicy(i); }
    }
    forall name ensures name in Elements(s) <==> name in JsonNames(files) {
      if name in Elements(s) {
        var i :| 0 <= i < |s| && s[i] == name;
        NamesAreJson(i);
        if i < n { assert Stored(files, events, i); }
      }
      if name in JsonNames(files) {
        assert Known(files, n, name);
        if name == POLICY_NAME {
          assert s[n] == name;
        } else {
          var i: nat :| i < n && name == EventName(i);
          assert s[i] == name;
        }
      }
    }
  }

  function DurableOf(events: seq<ChainEvent>): (r: seq<ChainEvent>)
    ensures |r| == |events| && forall i :: 0 <= i < |events| ==> r[i] == Durable(events[i])
  {
    seq(|events|, i requires 0 <= i < |events| => Durable(events[i]))
  }

  lemma {:induction false} LoadNames(files: map<string, File>, events: seq<ChainEvent>, k: nat)
    requires FilesMatch(files, events) && k <= |events|
    ensures LoadEvents(files, Names(k)) == DurableOf(events)[..k]
  {
    hide EventName;
    if k > 0 {
      LoadNames(files, events, k - 1);
      assert Names(k)[..k - 1] == Names(k - 1);
      assert Stored(files, events, k - 1);
    }
  }

  /** The loaded events of any listing of the directory. */
  lemma LoadListing(files: map<string, File>, events: seq<ChainEvent>, listing: seq<string>)
    requires FilesMatch(files, events) && |events| <= 100_000_000 && IsListing(files, listing)
    ensures LoadEvents(files, listing) == DurableOf(events)
  {
    hide Less, EventName, Elements, LoadEvents, Durable, FilesMatch;
    StandardIsListing(files, events);
    ListingUnique(listing, Standard(files, |events|));
    LoadNames(files, events, |events|);
    LoadPolicyLast(files, events);
    assert DurableOf(events)[..|events|] == DurableOf(events);
  }

  lemma LoadPolicyLast(files: map<string, File>, events: seq<ChainEvent>)
    requires FilesMatch(files, events)
    ensures LoadEvents(files, Standard(files, |events|)) == LoadEvents(files, Names(|events|))
  {
    var names := Names(|events|);
    if POLICY_NAME in files {
      assert (names + [POLICY_NAME])[..|names|] == names;
      assert Known(files, |events|, POLICY_NAME);
      forall i: nat ensures POLICY_NAME != EventName(i) { NameBeforePolicy(i); }
    } else {
      assert names + [] == names;
    }
  }

  /** Reload: with at most 10^8 events everything comes back as it was, policy included, but for each event what is
      durable of it; and the reloaded chain satisfies the invariant again. */
  lemma ReloadRestores(c: Chain, listing: seq<string>)
    requires Inv(c) && |c.events| <= 100_000_000 && IsListing(c.files, listing)
    ensures
      var r := Reload(c.userId, c.files, listing);
      r == c.(events := DurableOf(c.events)) && Inv(r)
  {
    hide Intact, InOrder, FilesMatch, NextSequence, TipHash, HashBefore, LoadPolicy, IsListing;
    LoadListing(c.files, c.events, listing);
    DurableIntact(c.events);
    DurableFiles(c.files, c.events);
  }

  lemma DurableIntact(events: seq<ChainEvent>)
    requires Intact(events) && InOrder(events)
    ensures
      var loaded := DurableOf(events);
      Intact(loaded) && InOrder(loaded) && NextSequence(loaded) == |events|
      && TipHash(loaded) == HashBefore(events, |events|) == HashBefore(loaded, |loaded|)
  {
    var loaded := DurableOf(events);
    forall i | 0 <= i < |loaded| ensures Linked(loaded, i) && Placed(loaded[i], i) {
      assert Linked(events, i) && Placed(events[i], i);
    }
    if |loaded| > 0 {
      assert Placed(events[|loaded| - 1], |loaded| - 1);
    }
  }

  lemma DurableFiles(files: map<string, File>, events: seq<ChainEvent>)
    requires FilesMatch(files, events)
    ensures FilesMatch(files, DurableOf(events))
  {
    hide EventName;
    forall i | 0 <= i < |events| ensures Stored(files, DurableOf(events), i) {
      assert Stored(files, events, i);
    }
  }

  /** Exact, event by event: a restart brings an event back field by field if and only if nothing was added to it
      after it was last persisted; a receipt, or an anchor, survives if and only if there is none or a notary
      attestation stands beside it. */
  lemma EventRestoredExactly(c: Chain, listing: seq<string>, i: nat)
    requires Inv(c) && |c.events| <= 100_000_000 && IsListing(c.files, listing) && i < |c.events|
    ensures
      var (e, r) := (c.events[i], Reload(c.userId, c.files, listing));
      i < |r.events| && (r.events[i] == e <==> Persisted(e))
      && r.events[i] == e.(stripe := r.events[i].stripe, anchor := r.events[i].anchor)
      && (r.events[i].stripe == e.stripe <==> e.stripe.None? || e.notary.Some?)
      && (r.events[i].anchor == e.anchor <==> e.anchor.None? || e.notary.Some?)
  {
    hide Inv, IsListing, Reload;
    ReloadRestores(c, listing);
  }

  /** Exact, for the whole chain: a restart is unnoticeable if and only if every event is as last persisted; and a
      second restart always is. */
  lemma RestartExactly(c: Chain, listing: seq<string>)
    requires Inv(c) && |c.events| <= 100_000_000 && IsListing(c.files, listing)
    ensures
      var r := Reload(c.userId, c.files, listing);
      (r == c <==> forall i :: 0 <= i < |c.events| ==> Persisted(c.events[i]))
      && Reload(r.userId, r.files, listing) == r
  {
    hide Inv, IsListing, Reload;
    ReloadRestores(c, listing);
    var r := Reload(c.userId, c.files, listing);
    ReloadRestores(r, listing);
    forall i | 0 <= i < |c.events| ensures r.events[i] == c.events[i] <==> Persisted(c.events[i]) {}
    assert DurableOf(DurableOf(c.events)) == DurableOf(c.events);
  }

  // ---- More than 10^8 events ----

  /** Every loaded event is the stored copy of some event. */
  lemma {:induction false} LoadedFromFiles(files: map<string, File>, names: seq<string>, k: nat)
    requires k < |LoadEvents(files, names)|
    ensures exists name :: name in names && name in files && files[name] == EventFile(LoadEvents(files, names)[k])
    decreases |names|
  {
    var n := |names| - 1;
    var before := LoadEvents(files, names[..n]);
    if k < |before| {
      LoadedFromFiles(files, names[..n], k);
    } else {
      assert names[n] in names;
    }
  }

  /** Loading keeps the order of the listing. */
  lemma {:induction false} LoadKeepsOrder(files: map<string, File>, names: seq<string>, i: nat, j: nat) returns (p: nat, q: nat)
    requires i < j < |names| && names[i] in files && names[j] in files
    requires files[names[i]].EventFile? && files[names[j]].EventFile?
    ensures p < q < |LoadEvents(files, names)|
    ensures LoadEvents(files, names)[p] == files[names[i]].event && LoadEvents(files, names)[q] == files[names[j]].event
    decreases |names|
  {
    var n := |names| - 1;
    if j < n {
      p, q := LoadKeepsOrder(files, names[..n], i, j);
    } else {
      p := LoadFinds(files, names[..n], i);
      q := |LoadEvents(files, names[..n])|;
    }
  }

  lemma {:induction false} LoadFinds(files: map<string, File>, names: seq<string>, i: nat) returns (p: nat)
    requires i < |names| && names[i] in files && files[names[i]].EventFile?
    ensures p < |LoadEvents(files, names)| && LoadEvents(files, names)[p] == files[names[i]].event
    decreases |names|
  {
    var n := |names| - 1;
    if i < n {
      p := LoadFinds(files, names[..n], i);
    } else {
      p := |LoadEvents(files, names[..n])|;
    }
  }

  /** A loaded event with a predecessor in the original chain links to that predecessor and to nothing else. */
  lemma LoadedLink(c: Chain, names: seq<string>, k: nat)
    requires Inv(c) && k < |LoadEvents(c.files, names)|
    ensures
      var e := LoadEvents(c.files, names)[k];
      e.sequence < |c.events| && e.previousHash == HashBefore(c.events, e.sequence)
  {
    LoadedFromFiles(c.files, names, k);
    var e := LoadEvents(c.files, names)[k];
    var name :| name in names && name in c.files && c.files[name] == EventFile(e);
    assert Known(c.files, |c.events|, name);
    var i: nat :| i < |c.events| && name == EventName(i);
    assert Stored(c.files, c.events, i) && Linked(c.events, i);
  }

  /** If the loaded events verify, they are in sequence order. */
  lemma {:induction false} VerifiedInOrder(c: Chain, names: seq<string>, k: nat)
    requires Inv(c) && Intact(LoadEvents(c.files, names)) && k < |LoadEvents(c.files, names)|
    ensures LoadEvents(c.files, names)[k].sequence == k
    decreases k
  {
    var loaded := LoadEvents(c.files, names);
    LoadedLink(c, names, k);
    assert Linked(loaded, k);
    if k > 0 {
      VerifiedInOrder(c, names, k - 1);
      LoadedLink(c, names, k - 1);
    }
  }

  lemma NoOrderBeyond(c: Chain, listing: seq<string>)
    requires Inv(c) && |c.events| > 100_000_000 && IsListing(c.files, listing)
    ensures !Intact(LoadEvents(c.files, listing))
  {
    hide EventName, LoadEvents, Less, Intact, InOrder;
    var early, late := EventName(100_000_000), EventName(99_999_999);
    assert Stored(c.files, c.events, 100_000_000) && Stored(c.files, c.events, 99_999_999);
    NamesAreJson(100_000_000);
    NamesAreJson(99_999_999);
    assert early in Elements(listing) && late in Elements(listing);
    var i :| 0 <= i < |listing| && listing[i] == early;
    var j :| 0 <= j < |listing| && listing[j] == late;
    OverflowListsEarlier();
    LessIrreflexive(early);
    if j < i { LessTransitive(early, late, early); }
    var p, q := LoadKeepsOrder(c.files, listing, i, j);
    StoredSequence(c, 100_000_000);
    StoredSequence(c, 99_999_999);
    if Intact(LoadEvents(c.files, listing)) {
      VerifiedInOrder(c, listing, p);
      VerifiedInOrder(c, listing, q);
    }
  }

  lemma StoredSequence(c: Chain, i: nat)
    requires Inv(c) && i < |c.events|
    ensures Stored(c.files, c.events, i) && c.files[EventName(i)].event.sequence == i
  {
    hide EventName;
    assert Stored(c.files, c.events, i);
  }

  /** Reload, exact: the reloaded chain verifies if and only if there are at most 10^8 events. */
  lemma ReloadVerifiesExactly(c: Chain, listing: seq<string>)
    requires Inv(c) && IsListing(c.files, listing)
    ensures Intact(Reload(c.userId, c.files, listing).events) <==> |c.events| <= 100_000_000
  {
    if |c.events| <= 100_000_000 {
      ReloadRestores(c, listing);
    } else {
      NoOrderBeyond(c, listing);
    }
  }

  // ---- Runs with restarts ----

  datatype Op =
    | DoLog(capture: Capture)
    | DoReceipt(capture: Capture, stripe: Option<string>, anchor: Option<string>)
    | DoAttest(id: string, attestation: string)
    | DoPolicy(updates: Policy)
    | DoRestart(listing: seq<string>)

  function Step(c: Chain, op: Op): Chain {
    match op
    case DoLog(x) => Log(c, x)
    case DoReceipt(x, stripe, anchor) => LogMarked(c, x, stripe, anchor)
    case DoAttest(id, a) => Attest(c, id, a)
    case DoPolicy(p) => UpdatePolicy(c, p)
    case DoRestart(listing) => Reload(c.userId, c.files, listing)
  }

  /** A restart reads the sorted listing of the directory, which holds at most 10^8 events. */
  ghost predicate Enabled(c: Chain, op: Op) {
    op.DoRestart? ==> IsListing(c.files, op.listing) && |c.events| <= 100_000_000
  }

  ghost predicate ValidRun(c: Chain, ops: seq<Op>)
    decreases |ops|
  {
    ops == [] || (Enabled(c, ops[0]) && ValidRun(Step(c, ops[0]), ops[1..]))
  }

  function Run(c: Chain, ops: seq<Op>): Chain
    decreases |ops|
  {
    if ops == [] then c else Run(Step(c, ops[0]), ops[1..])
  }

  lemma StepKeeps(c: Chain, op: Op)
    requires Inv(c) && Enabled(c, op)
    ensures Inv(Step(c, op))
  {
    hide Inv;
    match op
    case DoLog(x) => LogKeeps(c, x, None, None);
    case DoReceipt(x, stripe, anchor) => LogKeeps(c, x, stripe, anchor);
    case DoAttest(id, a) => AttestKeeps(c, id, a);
    case DoPolicy(p) => PolicyKeeps(c, p);
    case DoRestart(listing) => RestartKeeps(c, listing);
  }

  lemma RestartKeeps(c: Chain, listing: seq<string>)
    requires Inv(c) && IsListing(c.files, listing) && |c.events| <= 100_000_000
    ensures Inv(Reload(c.userId, c.files, listing))
  {
    ReloadRestores(c, listing);
  }

  /** Every run of logging, annotating, policy changes and restarts keeps the chain intact, in order and on disk. */
  lemma {:induction false} RunKeeps(c: Chain, ops: seq<Op>)
    requires Inv(c) && ValidRun(c, ops)
    ensures Inv(Run(c, ops))
    decreases |ops|
  {
    hide Inv, Step, Enabled;
    if ops != [] {
      StepKeeps(c, ops[0]);
      RunKeeps(Step(c, ops[0]), ops[1..]);
    }
  }

  // ---- Consent over runs ----

  /** No event of the type, in memory or on disk. */
  ghost predicate FreeOf(c: Chain, t: EventType) {
    (forall i :: 0 <= i < |c.events| ==> c.events[i].eventType != t)
    && (forall name :: name in c.files && c.files[name].EventFile? ==> c.files[name].event.eventType != t)
  }

  /** The call neither sets the setting nor overrides it for the type. */
  ghost predicate Withholds(op: Op, key: string, t: EventType) {
    match op
    case DoLog(x) => !(x.consentOverride && x.eventType == t)
    case DoReceipt(x, _, _) => !(x.consentOverride && x.eventType == t)
    case DoPolicy(updates) => key in updates ==> !IsSet(updates, key)
    case _ => true
  }

  lemma LogStaysFree(c: Chain, x: Capture, stripe: Option<string>, anchor: Option<string>, key: string, t: EventType)
    requires FreeOf(c, t) && Governs(key, t) && !IsSet(c.policy, key) && !(x.consentOverride && x.eventType == t)
    ensures FreeOf(Log(c, x), t) && FreeOf(LogMarked(c, x, stripe, anchor), t)
  {
    hide EventId, EventName, HasConsent, IsSet, Governs, PrivacyOf, Preview;
    ConsentMeans(c.policy, x.eventType);
    assert Captured(c, x) ==> x.eventType != t;
  }

  lemma ReloadStaysFree(c: Chain, listing: seq<string>, t: EventType)
    requires FreeOf(c, t)
    ensures FreeOf(Reload(c.userId, c.files, listing), t)
  {
    var r := Reload(c.userId, c.files, listing);
    forall i | 0 <= i < |r.events| ensures r.events[i].eventType != t {
      LoadedFromFiles(c.files, listing, i);
    }
  }

  lemma AttestStaysFree(c: Chain, id: string, attestation: string, t: EventType)
    requires FreeOf(c, t)
    ensures FreeOf(Attest(c, id, attestation), t) && Attest(c, id, attestation).policy == c.policy
  {
  }

  lemma StepStaysFree(c: Chain, op: Op, key: string, t: EventType)
    requires Inv(c) && FreeOf(c, t) && Governs(key, t) && !IsSet(c.policy, key) && Withholds(op, key, t)
    ensures FreeOf(Step(c, op), t) && !IsSet(Step(c, op).policy, key)
  {
    hide Inv, FreeOf, Log, LogMarked, Attest, Governs, Reload;
    StepMerges(c, op);
    match op
    case DoLog(x) => LogStaysFree(c, x, None, None, key, t);
    case DoReceipt(x, stripe, anchor) => LogStaysFree(c, x, stripe, anchor, key, t);
    case DoAttest(id, a) => AttestStaysFree(c, id, a, t);
    case DoPolicy(p) => PolicyStaysFree(c, p, t);
    case DoRestart(listing) => ReloadStaysFree(c, listing, t);
  }

  lemma PolicyStaysFree(c: Chain, updates: Policy, t: EventType)
    requires FreeOf(c, t)
    ensures FreeOf(UpdatePolicy(c, updates), t)
  {
  }

  /** Consent before capture, over runs: while a setting is not set, no update sets it and no call overrides it for a
      type it governs, neither the chain nor the directory ever holds an event of that type. */
  lemma {:induction false} NoCaptureWithoutConsent(c: Chain, ops: seq<Op>, key: string, t: EventType)
    requires Inv(c) && ValidRun(c, ops) && FreeOf(c, t) && Governs(key, t) && !IsSet(c.policy, key)
    requires forall k :: 0 <= k < |ops| ==> Withholds(ops[k], key, t)
    ensures FreeOf(Run(c, ops), t) && !IsSet(Run(c, ops).policy, key)
    decreases |ops|
  {
    hide Inv, Step, Enabled, FreeOf, Governs, Withholds, IsSet;
    if ops != [] {
      StepKeeps(c, ops[0]);
      StepStaysFree(c, ops[0], key, t);
      NoCaptureWithoutConsent(Step(c, ops[0]), ops[1..], key, t);
    }
  }

  /** A new chain captures no prompts and no uploads until it is told to; builds it captures from the start. */
  lemma PrivateByDefault(userId: string, ops: seq<Op>)
    requires ValidRun(EmptyChain(userId), ops)
    ensures (forall k :: 0 <= k < |ops| ==> Withholds(ops[k], "auto_capture_prompts", Prompt)) ==> FreeOf(Run(EmptyChain(userId), ops), Prompt)
    ensures (forall k :: 0 <= k < |ops| ==> Withholds(ops[k], "auto_capture_uploads", Upload)) ==> FreeOf(Run(EmptyChain(userId), ops), Upload)
    ensures IsSet(EmptyChain(userId).policy, "auto_capture_builds")
    ensures "default_privacy" in EmptyChain(userId).policy && EmptyChain(userId).policy["default_privacy"] == Label(Private)
  {
    hide Run, ValidRun, Withholds, FreeOf, Inv, IsSet, EmptyChain, Governs;
    var c := EmptyChain(userId);
    EmptyChainHolds(userId);
    DefaultSettings(userId);
    if forall k :: 0 <= k < |ops| ==> Withholds(ops[k], "auto_capture_prompts", Prompt) {
      NoCaptureWithoutConsent(c, ops, "auto_capture_prompts", Prompt);
    }
    if forall k :: 0 <= k < |ops| ==> Withholds(ops[k], "auto_capture_uploads", Upload) {
      NoCaptureWithoutConsent(c, ops, "auto_capture_uploads", Upload);
    }
  }

  lemma DefaultSettings(userId: string)
    ensures
      var c := EmptyChain(userId);
      FreeOf(c, Prompt) && FreeOf(c, Upload) && !IsSet(c.policy, "auto_capture_prompts") && !IsSet(c.policy, "auto_capture_uploads")
      && IsSet(c.policy, "auto_capture_builds") && "default_privacy" in c.policy && c.policy["default_privacy"] == Label(Private)
      && c.policy.Keys == {"auto_capture_prompts", "auto_capture_uploads", "auto_capture_builds", "default_privacy",
                           "public_anchor_allowed", "monetization_enabled"}
      && c.policy["public_anchor_allowed"] == Flag(false) && c.policy["monetization_enabled"] == Flag(false)
      && Governs("auto_capture_prompts", Prompt) && Governs("auto_capture_uploads", Upload)
  {
  }

  lemma EmptyChainHolds(userId: string)
    ensures Inv(EmptyChain(userId))
  {
  }

  /** The updates of a run, merged in order. */
  ghost function Merged(p: Policy, ops: seq<Op>): Policy
    decreases |ops|
  {
    if ops == [] then p else Merged(if ops[0].DoPolicy? then p + ops[0].updates else p, ops[1..])
  }

  lemma StepMerges(c: Chain, op: Op)
    requires Inv(c)
    ensures Step(c, op).policy == if op.DoPolicy? then c.policy + op.updates else c.policy
  {
    hide Persist, MarkLast, LoadEvents, IndexOf;
  }

  /** The policy in force is every update of the run merged in order, whatever restarts lie between. */
  lemma {:induction false} PolicySurvivesRestarts(c: Chain, ops: seq<Op>)
    requires Inv(c) && ValidRun(c, ops)
    ensures Run(c, ops).policy == Merged(c.policy, ops)
    decreases |ops|
  {
    hide Inv, Step, Enabled;
    if ops != [] {
      StepKeeps(c, ops[0]);
      StepMerges(c, ops[0]);
      PolicySurvivesRestarts(Step(c, ops[0]), ops[1..]);
    }
  }

  /** The receipt that log_stripe_receipt sets is lost by a restart right after it. */
  lemma ReceiptLostOnRestart(userId: string, x: Capture, receipt: string, listing: seq<string>)
    requires Captured(EmptyChain(userId), x)
    requires IsListing(LogMarked(EmptyChain(userId), x, Some(receipt), None).files, listing)
    ensures
      var c := LogMarked(EmptyChain(userId), x, Some(receipt), None);
      var r := Reload(userId, c.files, listing);
      |c.events| == |r.events| == 1 && c.events[0].stripe == Some(receipt) && r.events[0].stripe == None
  {
    hide Inv, IsListing, Reload, EventId;
    EmptyChainHolds(userId);
    LogKeeps(EmptyChain(userId), x, Some(receipt), None);
    ReloadRestores(LogMarked(EmptyChain(userId), x, Some(receipt), None), listing);
  }

  // ---- The object ----

  /** What a logging call answers: the event, None without consent, or the ValueError of a bad label. */
  datatype Outcome = Logged(event: ChainEvent) | NoConsent | BadLabel

  class ChainStore {
    const userId: string
    var events: seq<ChainEvent>
    var sequence: nat
    var lastHash: Hash
    var policy: Policy
    var files: map<string, File>

    ghost function View(): Chain
      reads this
    {
      Chain(userId, events, sequence, lastHash, policy, files)
    }

    /** Opens a directory: reads the sorted listing, then the policy. */
    constructor (userId: string, directory: map<string, File>)
      ensures exists listing :: IsListing(directory, listing) && View() == Reload(userId, directory, listing)
    {
      this.userId := userId;
      files := directory;
      events, sequence, lastHash, policy := [], 0, Genesis, DEFAULT_POLICY;
      new;
      var listing := SortedListing(JsonNames(directory));
      var k := 0;
      while k < |listing|
        invariant 0 <= k <= |listing| && files == directory && policy == DEFAULT_POLICY
        invariant events == LoadEvents(directory, listing[..k])
        invariant sequence == NextSequence(events) && lastHash == TipHash(events)
      {
        assert listing[..k + 1][..k] == listing[..k];
        if listing[k] in files && files[listing[k]].EventFile? {
          var event := files[listing[k]].event;
          events := events + [event];
          sequence := event.sequence + 1;
          lastHash := FullHash(event);
        }
        k := k + 1;
      }
      assert listing[..k] == listing;
      if POLICY_NAME in files && files[POLICY_NAME].PolicyFile? {
        policy := files[POLICY_NAME].policy;
      }
      assert IsListing(directory, listing) && View() == Reload(userId, directory, listing);
    }

    method LogEvent(x: Capture) returns (outcome: Outcome)
      modifies this
      ensures View() == Log(old(View()), x)
      ensures outcome == if !Consented(old(View()), x) then NoConsent
                         else if Captured(old(View()), x) then Logged(NewEvent(old(View()), x)) else BadLabel
      ensures outcome.NoConsent? <==>
        !x.consentOverride && exists key :: Governs(key, x.eventType) && !IsSet(old(policy), key)
    {
      ConsentMeans(policy, x.eventType);
      if !x.consentOverride && !HasConsent(policy, x.eventType) {
        return NoConsent;
      }
      var privacy := x.privacy;
      if privacy.None? {
        privacy := DefaultPrivacy(policy);
      }
      if privacy.None? {
        return BadLabel;
      }
      var dataHash := Sha256(x.data);
      var preview := if |x.data| > 200 then x.data[..200] else x.data;
      var consentToken := ConsentToken(userId, x.eventType, x.tokenTime, dataHash);
      var e := ChainEvent(EventId(userId, x.idTime, sequence), x.eventType, x.timestamp, dataHash, preview, privacy.value,
                          consentToken, sequence, lastHash, x.metadata, None, None, None);
      events := events + [e];
      sequence := sequence + 1;
      lastHash := FullHash(e);
      files := files[EventName(e.sequence) := EventFile(e)];
      return Logged(e);
    }

    method LogStripeReceipt(x: Capture, receipt: Option<string>) returns (logged: bool)
      modifies this
      ensures View() == LogMarked(old(View()), x, receipt, None) && logged == Captured(old(View()), x)
    {
      var outcome := LogEvent(x);
      logged := outcome.Logged?;
      if logged {
        var n := |events| - 1;
        events := events[n := events[n].(stripe := receipt)];
      }
    }

    method LogSolanaAnchor(x: Capture, tx: string) returns (logged: bool)
      modifies this
      ensures View() == LogMarked(old(View()), x, None, Some(tx)) && logged == Captured(old(View()), x)
    {
      var outcome := LogEvent(x);
      logged := outcome.Logged?;
      if logged {
        var n := |events| - 1;
        events := events[n := events[n].(anchor := Some(tx))];
      }
    }

    method AddNotaryAttestation(id: string, attestation: string) returns (found: bool)
      modifies this
      ensures View() == Attest(old(View()), id, attestation)
      ensures found == exists k :: 0 <= k < |old(events)| && old(events)[k].eventId == id
    {
      IndexOfFinds(events, id);
      var k := 0;
      while k < |events|
        invariant 0 <= k <= IndexOf(events, id) && View() == old(View())
      {
        if events[k].eventId == id {
          var e := events[k].(notary := Some(attestation));
          events := events[k := e];
          files := files[EventName(e.sequence) := EventFile(e)];
          return true;
        }
        k := k + 1;
      }
      return false;
    }

    method VerifyChainIntegrity() returns (ok: bool)
      ensures ok == Intact(events)
    {
      if events == [] {
        return true;
      }
      var expected := Genesis;
      var k := 0;
      while k < |events|
        invariant 0 <= k <= |events| && expected == HashBefore(events, k)
        invariant forall j :: 0 <= j < k ==> Linked(events, j)
      {
        assert Linked(events, k) <==> events[k].previousHash == expected;
        if events[k].previousHash != expected {
          return false;
        }
        expected := FullHash(events[k]);
        k := k + 1;
      }
      return true;
    }

    method UpdateConsentPolicy(updates: Policy)
      modifies this
      ensures View() == UpdatePolicy(old(View()), updates)
    {
      policy := policy + updates;
      files := files[POLICY_NAME := PolicyFile(policy)];
    }
  }
}
