/** RecordsController.ts over MemoryRecordsStore.ts: issuing and validating record keys. */
module Records {
  import opened JsStrings
  import opened Options
  import opened Sequences
  import opened Utf8
  import Base64
  import opened Hashing
  import opened Authorization
  import opened Keys
  import opened GrantLaws
  import opened ListGrants

  datatype Record = Record(name: JsString, ownerId: JsString, secretHashes: seq<Hash>, secretSalt: JsString)

  /** A stored key; its policy is the text it was issued with. */
  datatype StoredKey = StoredKey(recordName: JsString, secretHash: Hash, policy: JsString, creatorId: JsString)

  datatype State = State(records: seq<Record>, keys: seq<StoredKey>)

  function Called(name: JsString): Record -> bool { (r: Record) => r.name == name }
  function ForSecret(name: JsString, hash: Hash): StoredKey -> bool {
    (k: StoredKey) => k.recordName == name && k.secretHash == hash
  }

  function RecordByName(st: State, name: JsString): Option<Record> {
    var i := FindIndex(st.records, Called(name));
    if i == -1 then None else Some(st.records[i])
  }

  function KeyFor(st: State, name: JsString, hash: Hash): Option<StoredKey> {
    var i := FindIndex(st.keys, ForSecret(name, hash));
    if i == -1 then None else Some(st.keys[i])
  }

  function WithRecord(st: State, r: Record): State {
    if RecordByName(st, r.name).Some? then st else st.(records := st.records + [r])
  }

  function WithKey(st: State, k: StoredKey): State {
    if KeyFor(st, k.recordName, k.secretHash).Some? then st else st.(keys := st.keys + [k])
  }

  datatype CreateResult = Created(recordKey: JsString) | NotLoggedInToCreate | InvalidPolicy | OwnedByAnother | CreateFailed

  /** The random part of one creation. */
  datatype Randomness = Randomness(password: Bytes, salt: Bytes)

  /** `createPublicRecordKey`. The policy check lets the empty text through. */
  function CreateKey(st: State, name: JsString, policy: Option<JsString>, userId: Option<JsString>,
                     random: Randomness): (CreateResult, State)
  {
    if userId.None? || userId.value == [] then (NotLoggedInToCreate, st)
    else if policy.Some? && policy.value != [] && PolicyOfText(policy.value).None? then (InvalidPolicy, st)
    else
      var found := RecordByName(st, name);
      if found.Some? && found.value.ownerId != userId.value then (OwnedByAnother, st)
      else
        var password := Base64.Encode(random.password);
        var record := if found.Some? then found.value else Record(name, userId.value, [], Base64.Encode(random.salt));
        if !Hashable(password, record.secretSalt) then (CreateFailed, st)
        else
          (Created(FormatV2RecordKey(name, password, policy)),
           WithKey(WithRecord(st, record),
                        StoredKey(name, HashHighEntropy(password, record.secretSalt), PolicyOrDefault(policy), record.ownerId)))
  }

  datatype ValidateResult = Valid(recordName: JsString, policy: KeyPolicy, ownerId: JsString, keyCreatorId: JsString)
                          | InvalidRecordKey | RecordNotFound | ValidateFailed

  /** What the hash lookups settle on: is the secret known, with which policy, by whom. */
  datatype Verdict = Verdict(valid: bool, policy: JsString, creatorId: Option<JsString>)

  function Judge(st: State, record: Record, password: JsString): Verdict
    requires Hashable(password, record.secretSalt)
  {
    var unknown := Verdict(false, PolicyText(DEFAULT_RECORD_KEY_POLICY), None);
    var hashV2, hashV1 := HashHighEntropy(password, record.secretSalt), HashPassword(password, record.secretSalt);
    var keyV2, keyV1 := KeyFor(st, record.name, hashV2), KeyFor(st, record.name, hashV1);
    if hashV2 in record.secretHashes then unknown.(valid := true, creatorId := Some(record.ownerId))
    else if keyV2.Some? then Verdict(true, keyV2.value.policy, Some(keyV2.value.creatorId))
    else if hashV1 in record.secretHashes then unknown.(valid := true)
    else if keyV1.Some? then Verdict(true, keyV1.value.policy, Some(keyV1.value.creatorId))
    else unknown
  }

  /** `validatePublicRecordKey` */
  function Validate(st: State, key: JsString): ValidateResult {
    match ParseRecordKey(key)
    case None => InvalidRecordKey
    case Some(RecordKey(name, password, policy)) =>
      match RecordByName(st, name)
      case None => RecordNotFound
      case Some(record) =>
        if !Hashable(password, record.secretSalt) then ValidateFailed
        else
          var v := Judge(st, record, password);
          if v.policy != PolicyText(policy) || !v.valid then InvalidRecordKey
          else Valid(name, policy, record.ownerId, if v.creatorId.Some? then v.creatorId.value else record.ownerId)
  }

  class MemoryRecordsStore {
    var records: seq<Record>
    var recordKeys: seq<StoredKey>

    ghost function Contents(): State
      reads this
    {
      State(records, recordKeys)
    }

    constructor ()
      ensures Contents() == State([], [])
    {
      records, recordKeys := [], [];
    }

    method GetRecordByName(name: JsString) returns (r: Option<Record>)
      ensures r == RecordByName(Contents(), name)
    {
      var i := FindIndex(records, Called(name));
      r := if i == -1 then None else Some(records[i]);
    }

    method AddRecord(record: Record)
      modifies this
      ensures Contents() == WithRecord(old(Contents()), record)
    {
      if FindIndex(records, Called(record.name)) < 0 {
        records := records + [record];
      }
    }

    method AddRecordKey(key: StoredKey)
      modifies this
      ensures Contents() == WithKey(old(Contents()), key)
    {
      if FindIndex(recordKeys, ForSecret(key.recordName, key.secretHash)) < 0 {
        recordKeys := recordKeys + [key];
      }
    }

    method GetRecordKeyByRecordAndHash(name: JsString, hash: Hash) returns (k: Option<StoredKey>)
      ensures k == KeyFor(Contents(), name, hash)
    {
      var i := FindIndex(recordKeys, ForSecret(name, hash));
      k := if i == -1 then None else Some(recordKeys[i]);
    }
  }

  class RecordsController {
    const store: MemoryRecordsStore

    constructor (store: MemoryRecordsStore)
      ensures this.store == store
    {
      this.store := store;
    }

    method CreatePublicRecordKey(name: JsString, policy: Option<JsString>, userId: Option<JsString>, random: Randomness)
      returns (r: CreateResult)
      modifies store
      ensures (r, store.Contents()) == CreateKey(old(store.Contents()), name, policy, userId, random)
    {
      if userId.None? || userId.value == [] {
        return NotLoggedInToCreate;
      }
      var record := store.GetRecordByName(name);
      if policy.Some? && policy.value != [] && PolicyOfText(policy.value).None? {
        return InvalidPolicy;
      }
      var password := Base64.Encode(random.password);
      if record.Some? {
        if record.value.ownerId != userId.value {
          return OwnedByAnother;
        }
        if !Hashable(password, record.value.secretSalt) {
          return CreateFailed;
        }
        store.AddRecordKey(StoredKey(name, HashHighEntropy(password, record.value.secretSalt),
                                     PolicyOrDefault(policy), record.value.ownerId));
      } else {
        var salt := Base64.Encode(random.salt);
        if !Hashable(password, salt) {
          return CreateFailed;
        }
        store.AddRecord(Record(name, userId.value, [], salt));
        store.AddRecordKey(StoredKey(name, HashHighEntropy(password, salt), PolicyOrDefault(policy), userId.value));
      }
      return Created(FormatV2RecordKey(name, password, policy));
    }

    method ValidatePublicRecordKey(key: JsString) returns (r: ValidateResult)
      ensures r == Validate(store.Contents(), key)
    {
      var parsed := ParseRecordKey(key);
      if parsed.None? {
        return InvalidRecordKey;
      }
      var name, password, policy := parsed.value.name, parsed.value.password, parsed.value.policy;
      var found := store.GetRecordByName(name);
      if found.None? {
        return RecordNotFound;
      }
      var record := found.value;
      if !Hashable(password, record.secretSalt) {
        return ValidateFailed;
      }
      var hashV2 := HashHighEntropy(password, record.secretSalt);
      var valid := false;
      var resultPolicy := PolicyText(DEFAULT_RECORD_KEY_POLICY);
      var creatorId: Option<JsString> := None;
      if hashV2 in record.secretHashes {
        valid, creatorId := true, Some(record.ownerId);
      } else {
        var key := store.GetRecordKeyByRecordAndHash(name, hashV2);
        if key.Some? {
          resultPolicy, creatorId, valid := key.value.policy, Some(key.value.creatorId), true;
        } else {
          var hash := HashPassword(password, record.secretSalt);
          if hash in record.secretHashes {
            valid := true;
          } else {
            key := store.GetRecordKeyByRecordAndHash(name, hash);
            if key.Some? {
              resultPolicy, creatorId, valid := key.value.policy, Some(key.value.creatorId), true;
            }
          }
        }
      }
      if resultPolicy != PolicyText(policy) {
        return InvalidRecordKey;
      }
      if !valid {
        return InvalidRecordKey;
      }
      return Valid(name, policy, record.ownerId, if creatorId.Some? then creatorId.value else record.ownerId);
    }
  }

  // ----- every run -----

  datatype Creation = Creation(name: JsString, policy: Option<JsString>, userId: Option<JsString>, random: Randomness)

  function Apply(st: State, c: Creation): State { CreateKey(st, c.name, c.policy, c.userId, c.random).1 }

  function Run(st: State, cs: seq<Creation>): State {
    if cs == [] then st else Apply(Run(st, cs[..|cs| - 1]), cs[|cs| - 1])
  }

  /** The secret is new for the record: nothing that could be looked up has its hash. */
  predicate FreshFor(st: State, c: Creation) {
    && c.random.password != [] && c.random.salt != []
    && var password := Base64.Encode(c.random.password);
    match RecordByName(st, c.name)
    case None => forall k | k in st.keys :: k.recordName != c.name
    case Some(r) =>
      Hashable(password, r.secretSalt) ==>
        && HashHighEntropy(password, r.secretSalt) !in r.secretHashes
        && KeyFor(st, c.name, HashHighEntropy(password, r.secretSalt)).None?
  }

  /** Later states find the same records and keys: lists only grow at the end. */
  ghost predicate Grows(a: State, b: State) {
    a.records <= b.records && a.keys <= b.keys
  }

  lemma {:induction false} RunGrows(st: State, cs: seq<Creation>)
    ensures Grows(st, Run(st, cs))
  {
    if cs != [] { RunGrows(st, cs[..|cs| - 1]); }
  }

  lemma {:induction false} FoundInLonger<T>(a: seq<T>, b: seq<T>, p: T -> bool)
    requires a <= b && FindIndex(a, p) != -1
    ensures FindIndex(b, p) == FindIndex(a, p)
  {
    if !p(a[0]) { FoundInLonger(a[1..], b[1..], p); }
  }

  lemma GrowsFinds(a: State, b: State, name: JsString, hash: Hash)
    requires Grows(a, b)
    ensures RecordByName(a, name).Some? ==> RecordByName(b, name) == RecordByName(a, name)
    ensures KeyFor(a, name, hash).Some? ==> KeyFor(b, name, hash) == KeyFor(a, name, hash)
  {
    if RecordByName(a, name).Some? { FoundInLonger(a.records, b.records, Called(name)); }
    if KeyFor(a, name, hash).Some? { FoundInLonger(a.keys, b.keys, ForSecret(name, hash)); }
  }

  lemma NoSuchKey(st: State, name: JsString, hash: Hash)
    requires forall k | k in st.keys :: k.recordName != name
    ensures KeyFor(st, name, hash).None?
  {}

  /** Right after a successful creation the record and the key are found. */
  lemma JustCreated(st: State, c: Creation)
    requires FreshFor(st, c) && CreateKey(st, c.name, c.policy, c.userId, c.random).0.Created?
    ensures var st' := Apply(st, c);
            var password := Base64.Encode(c.random.password);
            var record := RecordByName(st', c.name);
            && record.Some? && record.value.ownerId == c.userId.value && record.value.name == c.name
            && Hashable(password, record.value.secretSalt)
            && HashHighEntropy(password, record.value.secretSalt) !in record.value.secretHashes
            && KeyFor(st', c.name, HashHighEntropy(password, record.value.secretSalt))
               == Some(StoredKey(c.name, HashHighEntropy(password, record.value.secretSalt),
                                 PolicyOrDefault(c.policy), c.userId.value))
  {
    var password := Base64.Encode(c.random.password);
    var found := RecordByName(st, c.name);
    var record := if found.Some? then found.value else Record(c.name, c.userId.value, [], Base64.Encode(c.random.salt));
    var hash := HashHighEntropy(password, record.secretSalt);
    var withRecord := WithRecord(st, record);
    if found.None? {
      FoundAtEnd(st.records, record, Called(c.name));
      NoSuchKey(st, c.name, hash);
    }
    FoundAtEnd(withRecord.keys, StoredKey(c.name, hash, PolicyOrDefault(c.policy), record.ownerId), ForSecret(c.name, hash));
  }

  /** A key the controller returned validates, in every later state, to the
      record it was made for, its owner and its policy - exactly when the name
      can stand in a key and the policy was not the empty text. */
  lemma IssuedKeyValidates(st: State, c: Creation, later: seq<Creation>, k: KeyPolicy)
    requires FreshFor(st, c) && CreateKey(st, c.name, c.policy, c.userId, c.random).0.Created?
    ensures var key := CreateKey(st, c.name, c.policy, c.userId, c.random).0.recordKey;
            Validate(Run(Apply(st, c), later), key) == Valid(c.name, k, c.userId.value, c.userId.value)
            <==> Keyable(c.name) && PolicyOfText(PolicyOrDefault(c.policy)) == Some(k)
  {
    var password := Base64.Encode(c.random.password);
    var key := FormatV2RecordKey(c.name, password, c.policy);
    RandomText(c.random.password);
    RecordKeyV2RoundTripExact(c.name, password, c.policy, k);
    if Keyable(c.name) && PolicyOfText(PolicyOrDefault(c.policy)) == Some(k) {
      IssuedKeyKnown(st, c, later, key, k);
      PolicyTextExact(PolicyOrDefault(c.policy), k);
    }
    SecretSurvives(c.name, password, c.policy);
    if Validate(Run(Apply(st, c), later), key).Valid? { ValidMeansParsed(Run(Apply(st, c), later), key); }
  }

  lemma ValidMeansParsed(st: State, key: JsString)
    requires Validate(st, key).Valid?
    ensures var v := Validate(st, key);
            ParseRecordKey(key).Some? && ParseRecordKey(key).value.name == v.recordName
                && ParseRecordKey(key).value.policy == v.policy
  {}

  lemma SecretSurvives(name: JsString, password: JsString, policy: Option<JsString>)
    requires Keyable(password)
    ensures var parsed := ParseRecordKey(FormatV2RecordKey(name, password, policy));
            parsed.Some? ==> parsed.value.password == password
  {
    ParseFormattedV2(name, password, policy);
    FormattedV2IsNotV1(name, password, policy);
    ThroughExact(password);
  }

  /** Any text that parses to the created name and secret is judged by the
      policy the key was created with, in every later state. */
  lemma IssuedKeyKnown(st: State, c: Creation, later: seq<Creation>, key: JsString, policy: KeyPolicy)
    requires FreshFor(st, c) && CreateKey(st, c.name, c.policy, c.userId, c.random).0.Created?
    requires ParseRecordKey(key) == Some(RecordKey(c.name, Base64.Encode(c.random.password), policy))
    ensures Validate(Run(Apply(st, c), later), key)
         == if PolicyText(policy) == PolicyOrDefault(c.policy) then Valid(c.name, policy, c.userId.value, c.userId.value)
            else InvalidRecordKey
  {
    var st', password := Apply(st, c), Base64.Encode(c.random.password);
    JustCreated(st, c);
    RunGrows(st', later);
    GrowsFinds(st', Run(st', later), c.name, HashHighEntropy(password, RecordByName(st', c.name).value.secretSalt));
  }

  lemma PolicyTextExact(t: JsString, k: KeyPolicy)
    ensures PolicyOfText(t) == Some(k) <==> t == PolicyText(k)
  {
    PolicyTextRoundTrip(k);
  }

  // ----- only issued keys -----

  /** The keys that the successful creations of a run issued, in order. */
  function Issued(cs: seq<Creation>): seq<StoredKey> {
    if cs == [] then []
    else
      var init, c := cs[..|cs| - 1], cs[|cs| - 1];
      var before := Run(State([], []), init);
      if CreateKey(before, c.name, c.policy, c.userId, c.random).0.Created? then Issued(init) + [IssuedKey(before, c)]
      else Issued(init)
  }

  function IssuedKey(st: State, c: Creation): StoredKey
    requires CreateKey(st, c.name, c.policy, c.userId, c.random).0.Created?
  {
    var found := RecordByName(st, c.name);
    var salt := if found.Some? then found.value.secretSalt else Base64.Encode(c.random.salt);
    StoredKey(c.name, HashHighEntropy(Base64.Encode(c.random.password), salt), PolicyOrDefault(c.policy), c.userId.value)
  }

  predicate FreshRun(cs: seq<Creation>) {
    cs != [] ==> FreshRun(cs[..|cs| - 1]) && FreshFor(Run(State([], []), cs[..|cs| - 1]), cs[|cs| - 1])
  }

  /** Records carry no legacy hashes, and keys belong to records and have version 2 hashes. */
  ghost predicate Modern(st: State) {
    && (forall r | r in st.records :: r.secretHashes == [])
    && (forall k | k in st.keys :: k.secretHash.V2Hash?)
  }

  lemma {:induction false} RunIssues(cs: seq<Creation>)
    requires FreshRun(cs)
    ensures var st := Run(State([], []), cs); st.keys == Issued(cs) && Modern(st)
  {
    if cs != [] {
      var init, c := cs[..|cs| - 1], cs[|cs| - 1];
      var before := Run(State([], []), init);
      RunIssues(init);
      if CreateKey(before, c.name, c.policy, c.userId, c.random).0.Created? { CreationIssues(before, c); }
    }
  }

  lemma CreationIssues(st: State, c: Creation)
    requires Modern(st) && FreshFor(st, c) && CreateKey(st, c.name, c.policy, c.userId, c.random).0.Created?
    ensures Modern(Apply(st, c)) && Apply(st, c).keys == st.keys + [IssuedKey(st, c)]
  {
    var found := RecordByName(st, c.name);
    var salt := if found.Some? then found.value.secretSalt else Base64.Encode(c.random.salt);
    if found.None? { NoSuchKey(st, c.name, HashHighEntropy(Base64.Encode(c.random.password), salt)); }
  }

  /** Some creation of the run succeeded with this name, secret and policy text. */
  predicate IssuedWith(cs: seq<Creation>, name: JsString, secret: Bytes, policy: JsString) {
    cs != [] &&
      var init, c := cs[..|cs| - 1], cs[|cs| - 1];
      || IssuedWith(init, name, secret, policy)
      || (&& CreateKey(Run(State([], []), init), c.name, c.policy, c.userId, c.random).0.Created?
          && c.name == name && Encode(Base64.Encode(c.random.password)) == secret && PolicyOrDefault(c.policy) == policy)
  }

  /** The state finds a key of the record that has this secret and policy text. */
  predicate Stored(st: State, name: JsString, secret: Bytes, policy: JsString) {
    var found := RecordByName(st, name);
    && found.Some? && Base64.Decode(found.value.secretSalt).Some?
    && var key := KeyFor(st, name, V2Hash(secret, Base64.Decode(found.value.secretSalt).value));
    && key.Some? && key.value.policy == policy
  }

  lemma {:induction false} NotFoundAtEnd<T>(xs: seq<T>, x: T, p: T -> bool)
    requires !p(x)
    ensures FindIndex(xs + [x], p) == FindIndex(xs, p)
  {
    if xs == [] {
      assert xs + [x] == [x] && [x][1..] == [];
    } else {
      assert (xs + [x])[1..] == xs[1..] + [x];
      if !p(xs[0]) { NotFoundAtEnd(xs[1..], x, p); }
    }
  }

  /** A creation for another record changes nothing for this one. */
  lemma OtherRecordStored(st: State, c: Creation, name: JsString, secret: Bytes, policy: JsString)
    requires FreshFor(st, c) && Modern(st) && CreateKey(st, c.name, c.policy, c.userId, c.random).0.Created? && c.name != name
    ensures Stored(Apply(st, c), name, secret, policy) <==> Stored(st, name, secret, policy)
  {
    var found := RecordByName(st, c.name);
    CreationIssues(st, c);
    if found.None? {
      NotFoundAtEnd(st.records, Record(c.name, c.userId.value, [], Base64.Encode(c.random.salt)), Called(name));
    }
    forall hash: Hash ensures KeyFor(Apply(st, c), name, hash) == KeyFor(st, name, hash) {
      NotFoundAtEnd(st.keys, IssuedKey(st, c), ForSecret(name, hash));
    }
  }

  /** A creation adds its own secret and policy, and no other, to its record. */
  lemma OwnRecordStored(st: State, c: Creation, secret: Bytes, policy: JsString)
    requires FreshFor(st, c) && Modern(st) && CreateKey(st, c.name, c.policy, c.userId, c.random).0.Created?
    ensures Stored(Apply(st, c), c.name, secret, policy)
        <==> Stored(st, c.name, secret, policy)
             || (Encode(Base64.Encode(c.random.password)) == secret && PolicyOrDefault(c.policy) == policy)
  {
    var password := Base64.Encode(c.random.password);
    var found := RecordByName(st, c.name);
    var record := if found.Some? then found.value else Record(c.name, c.userId.value, [], Base64.Encode(c.random.salt));
    CreationIssues(st, c);
    if found.None? { FoundAtEnd(st.records, record, Called(c.name)); }
    assert RecordByName(Apply(st, c), c.name) == Some(record);
    var hash := V2Hash(secret, Base64.Decode(record.secretSalt).value);
    if found.None? { NoSuchKey(st, c.name, hash); }
    if Encode(password) == secret {
      assert KeyFor(st, c.name, hash).None?;
      FoundAtEnd(st.keys, IssuedKey(st, c), ForSecret(c.name, hash));
    } else {
      NotFoundAtEnd(st.keys, IssuedKey(st, c), ForSecret(c.name, hash));
    }
  }

  /** Over every run, what the state finds is what was issued. */
  lemma {:induction false} IssuedStored(cs: seq<Creation>, name: JsString, secret: Bytes, policy: JsString)
    requires FreshRun(cs)
    ensures Stored(Run(State([], []), cs), name, secret, policy) <==> IssuedWith(cs, name, secret, policy)
  {
    if cs != [] {
      var init, c := cs[..|cs| - 1], cs[|cs| - 1];
      var before := Run(State([], []), init);
      IssuedStored(init, name, secret, policy);
      RunIssues(init);
      if CreateKey(before, c.name, c.policy, c.userId, c.random).0.Created? {
        if c.name == name { OwnRecordStored(before, c, secret, policy); }
        else { OtherRecordStored(before, c, name, secret, policy); }
      }
    }
  }

  lemma CreationSalts(st: State, c: Creation, name: JsString)
    requires FreshFor(st, c) && RecordByName(st, name).None? && RecordByName(Apply(st, c), name).Some?
    ensures RecordByName(Apply(st, c), name).value.secretSalt == Base64.Encode(c.random.salt)
  {
    if RecordByName(st, c.name).None? && CreateKey(st, c.name, c.policy, c.userId, c.random).0.Created? {
      var record := Record(c.name, c.userId.value, [], Base64.Encode(c.random.salt));
      if c.name == name { FoundAtEnd(st.records, record, Called(name)); }
      else { NotFoundAtEnd(st.records, record, Called(name)); }
    }
  }

  /** The record, if there is one, is salted with something that decodes. */
  predicate WellSalted(st: State, name: JsString) {
    var found := RecordByName(st, name);
    found.Some? ==> found.value.secretSalt != [] && Base64.Decode(found.value.secretSalt).Some?
  }

  lemma ApplyFinds(st: State, c: Creation, name: JsString)
    requires RecordByName(st, name).Some?
    ensures RecordByName(Apply(st, c), name) == RecordByName(st, name)
  {
    FoundInLonger(st.records, Apply(st, c).records, Called(name));
  }

  lemma SaltedStep(st: State, c: Creation, name: JsString)
    requires FreshFor(st, c) && WellSalted(st, name)
    ensures WellSalted(Apply(st, c), name)
  {
    if RecordByName(st, name).Some? {
      ApplyFinds(st, c, name);
    } else if RecordByName(Apply(st, c), name).Some? {
      CreationSalts(st, c, name);
      RandomText(c.random.salt);
    }
  }

  lemma {:induction false} RunSalts(cs: seq<Creation>, name: JsString)
    requires FreshRun(cs)
    ensures WellSalted(Run(State([], []), cs), name)
  {
    if cs != [] {
      RunSalts(cs[..|cs| - 1], name);
      SaltedStep(Run(State([], []), cs[..|cs| - 1]), cs[|cs| - 1], name);
    }
  }

  lemma {:induction false} NoEmptySecret(cs: seq<Creation>, name: JsString, policy: JsString)
    requires FreshRun(cs)
    ensures !IssuedWith(cs, name, [], policy)
  {
    if cs != [] {
      NoEmptySecret(cs[..|cs| - 1], name, policy);
      RandomText(cs[|cs| - 1].random.password);
      EncodeEmpty(Base64.Encode(cs[|cs| - 1].random.password));
    }
  }

  /** Over every run from an empty store: a text is accepted exactly when it
      parses to a name, secret and policy with which one creation of the run
      succeeded. So a never-issued secret and an issued key with its policy
      suffix changed are both refused. */
  lemma ValidateExact(cs: seq<Creation>, key: JsString)
    requires FreshRun(cs)
    ensures var k := ParseRecordKey(key);
            Validate(Run(State([], []), cs), key).Valid?
            <==> k.Some? && IssuedWith(cs, k.value.name, Encode(k.value.password), PolicyText(k.value.policy))
  {
    var parsed := ParseRecordKey(key);
    if parsed.Some? {
      var k := parsed.value;
      IssuedStored(cs, k.name, Encode(k.password), PolicyText(k.policy));
      RunSalts(cs, k.name);
      NoEmptySecret(cs, k.name, PolicyText(k.policy));
      RunIssues(cs);
      ValidateStored(Run(State([], []), cs), key);
    }
  }

  lemma ValidateStored(st: State, key: JsString)
    requires Modern(st) && ParseRecordKey(key).Some?
    requires WellSalted(st, ParseRecordKey(key).value.name)
    ensures var k := ParseRecordKey(key).value;
            Validate(st, key).Valid? <==> k.password != [] && Stored(st, k.name, Encode(k.password), PolicyText(k.policy))
  {
    var k := ParseRecordKey(key).value;
    var found := RecordByName(st, k.name);
    if found.Some? && Hashable(k.password, found.value.secretSalt) {
      assert found.value in st.records;
      NoLegacyKey(st, k.name, HashPassword(k.password, found.value.secretSalt));
    }
  }

  lemma NoLegacyKey(st: State, name: JsString, hash: Hash)
    requires Modern(st) && hash.V1Hash?
    ensures KeyFor(st, name, hash).None?
  {
    FindIndexNone(st.keys, ForSecret(name, hash));
  }

  /** The empty policy text passes the controller's check, and the key it gives
      its caller does not parse. */
  lemma EmptyPolicyPasses(st: State, c: Creation)
    requires c.userId.Some? && c.userId.value != [] && c.random.password != [] && c.random.salt != []
    requires RecordByName(st, c.name).None? && c.policy == Some([])
    ensures var r := CreateKey(st, c.name, c.policy, c.userId, c.random).0;
            r.Created? && ParseRecordKey(r.recordKey).None?
  {
    RandomText(c.random.password);
    RandomText(c.random.salt);
    EmptyPolicyUnparseable(c.name, Base64.Encode(c.random.password));
  }

  /** A genuine key whose policy suffix has been exchanged is refused ever after. */
  lemma ChangedPolicyRefused(st: State, c: Creation, later: seq<Creation>, other: KeyPolicy)
    requires FreshFor(st, c) && CreateKey(st, c.name, c.policy, c.userId, c.random).0.Created?
    requires Keyable(c.name) && PolicyText(other) != PolicyOrDefault(c.policy)
    ensures var forged := FormatV2RecordKey(c.name, Base64.Encode(c.random.password), Some(PolicyText(other)));
            Validate(Run(Apply(st, c), later), forged) == InvalidRecordKey
  {
    var password := Base64.Encode(c.random.password);
    RandomText(c.random.password);
    PolicyTextRoundTrip(other);
    RecordKeyV2RoundTripExact(c.name, password, Some(PolicyText(other)), other);
    IssuedKeyKnown(st, c, later, FormatV2RecordKey(c.name, password, Some(PolicyText(other))), other);
  }

  // ----- the authorization context -----

  /** `constructAuthorizationContext`; None stands for its failures. */
  function ConstructContext(st: State, recordKeyOrName: JsString): Option<Context> {
    if IsRecordKey(recordKeyOrName) then
      match Validate(st, recordKeyOrName)
      case Valid(name, policy, ownerId, creatorId) => Some(Context(name, ownerId, Some(KeyGrant(policy, creatorId))))
      case _ => None
    else
      match RecordByName(st, recordKeyOrName)
      case None => None
      case Some(record) => Some(Context(recordKeyOrName, record.ownerId, None))
  }

  /** From the call that issues a key to every later request made with it:
      whatever keys are created and whatever policies are granted or revoked
      meanwhile, the key's holder - logged in or not - is authorized for every
      sensible request without instances that accepts a key, and lists every
      item that carries a marker. */
  lemma IssuedKeyAuthorizes(st: State, c: Creation, later: seq<Creation>, k: KeyPolicy, s: Setting, who: Requester, req: Request)
    requires FreshFor(st, c) && CreateKey(st, c.name, c.policy, c.userId, c.random).0.Created?
    requires Keyable(c.name) && PolicyOfText(PolicyOrDefault(c.policy)) == Some(k)
    requires (if req.ListData? then req.Markers() != [] else Sensible(req) && !req.Manage?) && OrEmpty(who.instances) == []
    requires ConstructContext(Run(Apply(st, c), later),
                              CreateKey(st, c.name, c.policy, c.userId, c.random).0.recordKey) == Some(s.ctx)
    ensures s.ctx == Context(c.name, c.userId.value, Some(KeyGrant(k, c.userId.value)))
    ensures Authorize(s, who, req).Allowed?
    ensures Authorize(s, who, req).authorizerId == Some(c.userId.value)
    ensures req.ListData? ==> Authorize(s, who, req).items == Some(Filter(req.items, Marked()))
  {
    IssuedKeyValidates(st, c, later, k);
    RandomText(c.random.password);
    RecordKeyV2RoundTripExact(c.name, Base64.Encode(c.random.password), c.policy, k);
    AdministratorsEligible(s, who.userId, KeyOrOwner);
    if req.ListData? { AdministratorLists(s, who, req.items); } else { AlwaysAuthorized(s, who, req); }
  }

  /** And such a context is always constructed. */
  lemma IssuedKeyHasContext(st: State, c: Creation, later: seq<Creation>, k: KeyPolicy)
    requires FreshFor(st, c) && CreateKey(st, c.name, c.policy, c.userId, c.random).0.Created?
    requires Keyable(c.name) && PolicyOfText(PolicyOrDefault(c.policy)) == Some(k)
    ensures ConstructContext(Run(Apply(st, c), later), CreateKey(st, c.name, c.policy, c.userId, c.random).0.recordKey).Some?
  {
    IssuedKeyValidates(st, c, later, k);
    RandomText(c.random.password);
    RecordKeyV2RoundTripExact(c.name, Base64.Encode(c.random.password), c.policy, k);
  }
}
