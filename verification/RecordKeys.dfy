/** When a record key is made and what making it changes, and which
    keys of the old hash still open. */
module RecordKeys {
  import opened JsStrings
  import opened Options
  import opened Sequences
  import opened Utf8
  import Base64
  import opened Hashing
  import opened Authorization
  import opened Keys
  import opened Records
  import opened KeyTexts

  // ----- making keys -----

  /** Absent, empty, or one of the two words. */
  predicate AcceptablePolicy(policy: Option<JsString>) {
    policy.None? || policy.value == [] || policy.value == Text("subjectfull") || policy.value == Text("subjectless")
  }

  lemma PolicyChecked(policy: JsString)
    ensures PolicyOfText(policy).None? <==> policy != Text("subjectfull") && policy != Text("subjectless")
  {
    Words();
  }

  /** After any run, a key is made exactly when somebody is logged in, the policy
      is acceptable, and the record is new or that user's own: a second key and
      every further one too. */
  lemma CreatedExact(cs: seq<Creation>, c: Creation)
    requires FreshRun(cs) && c.random.password != [] && c.random.salt != []
    ensures var st := Run(State([], []), cs);
            CreateKey(st, c.name, c.policy, c.userId, c.random).0.Created?
            <==> && c.userId.Some? && c.userId.value != [] && AcceptablePolicy(c.policy)
                 && var found := RecordByName(st, c.name);
                 (found.Some? ==> found.value.ownerId == c.userId.value)
  {
    var st := Run(State([], []), cs);
    if c.policy.Some? { PolicyChecked(c.policy.value); }
    RunSalts(cs, c.name);
    RandomText(c.random.password);
    RandomText(c.random.salt);
  }

  /** What a creation leaves: a refusal changes nothing; otherwise one key of the
      user's is added, and the record only where there was none. */
  lemma CreationChanges(st: State, c: Creation)
    requires FreshFor(st, c)
    ensures var (result, after) := CreateKey(st, c.name, c.policy, c.userId, c.random);
            && (!result.Created? ==> after == st)
            && (result.Created? ==>
                && |after.keys| == |st.keys| + 1 && after.keys[..|st.keys|] == st.keys
                && var key := after.keys[|st.keys|];
                && key.recordName == c.name && Some(key.creatorId) == c.userId
                && key.policy == (if c.policy.Some? then c.policy.value else Text("subjectfull"))
                && key.secretHash.V2Hash? && key.secretHash.password == Encode(Base64.Encode(c.random.password)))
  {
    Words();
    var found := RecordByName(st, c.name);
    var result := CreateKey(st, c.name, c.policy, c.userId, c.random).0;
    if result.Created? && found.None? {
      NoSuchKey(st, c.name, HashHighEntropy(Base64.Encode(c.random.password), Base64.Encode(c.random.salt)));
    }
  }

  lemma CreationRecord(st: State, c: Creation)
    requires CreateKey(st, c.name, c.policy, c.userId, c.random).0.Created?
    ensures var after := CreateKey(st, c.name, c.policy, c.userId, c.random).1;
            if RecordByName(st, c.name).Some? then after.records == st.records
            else c.userId.Some? && after.records
                                   == st.records + [Record(c.name, c.userId.value, [], Base64.Encode(c.random.salt))]
  {}

  // ----- keys from before there were policies -----

  /** The hashes kept in the record itself: a key whose secret has one of them, by
      either hash, is accepted - as one that needs a subject, and made by the owner. */
  lemma LegacyExact(st: State, record: Record, key: RecordKey, text: JsString)
    requires ParseRecordKey(text) == Some(key) && RecordByName(st, key.name) == Some(record)
    requires Hashable(key.password, record.secretSalt) && forall k | k in st.keys :: k.recordName != key.name
    ensures var known := exists h | h in record.secretHashes ::
                           h.password == Encode(key.password) && Base64.Decode(record.secretSalt) == Some(h.salt);
            Validate(st, text) == if known && key.policy.Subjectfull?
                                  then Valid(key.name, Subjectfull, record.ownerId, record.ownerId)
                                  else Records.InvalidRecordKey
  {
    PolicyTextRoundTrip(Subjectfull);
    PolicyTextRoundTrip(Subjectless);
    var v1, v2 := HashPassword(key.password, record.secretSalt), HashHighEntropy(key.password, record.secretSalt);
    NoSuchKey(st, key.name, v1);
    NoSuchKey(st, key.name, v2);
    forall h: Hash | h.password == Encode(key.password) && Base64.Decode(record.secretSalt) == Some(h.salt)
      ensures h == v1 || h == v2
    {}
  }

  // ----- contexts -----

  /** A text that is no key names a record, and gives a context without a key
      exactly when the record exists: its owner's. */
  lemma NamedContext(st: State, name: JsString)
    requires ParseRecordKey(name).None?
    ensures ConstructContext(st, name).Some? <==> exists r | r in st.records :: r.name == name
    ensures ConstructContext(st, name).Some?
            ==> var ctx := ConstructContext(st, name).value;
                && ctx.recordName == name && ctx.recordKey.None?
                && exists r | r in st.records :: r.name == name && r.ownerId == ctx.recordOwnerId
  {
    if r :| r in st.records && r.name == name {
      var i :| 0 <= i < |st.records| && st.records[i] == r;
      FindIndexIsFirst(st.records, Called(name), i);
    }
    var i := FindIndex(st.records, Called(name));
    if i != -1 { assert st.records[i] in st.records && st.records[i].name == name; }
  }

  /** A text that reads as a key never falls back to a name: it gives a context
      exactly when the key validates, with what validation says. */
  lemma KeyedContext(st: State, key: JsString)
    requires ParseRecordKey(key).Some?
    ensures ConstructContext(st, key).Some? <==> Validate(st, key).Valid?
    ensures ConstructContext(st, key).Some?
            ==> var ctx := ConstructContext(st, key).value;
                && ctx.recordName == ParseRecordKey(key).value.name && ctx.recordKey.Some?
                && ctx.recordKey.value.policy == ParseRecordKey(key).value.policy
                && ctx.recordKey.value.keyCreatorId == Validate(st, key).keyCreatorId
                && ctx.recordOwnerId == Validate(st, key).ownerId
  {
    if Validate(st, key).Valid? { ValidMeansParsed(st, key); }
  }
}
