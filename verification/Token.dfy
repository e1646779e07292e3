/** The bootstrap token: its string form, and the Secret it is stored in. */
module Token {
  import opened Api
  import opened Text

  // ---- The string form ----

  predicate TokenChar(c: char) {
    'a' <= c <= 'z' || '0' <= c <= '9'
  }

  ghost predicate TokenChars(s: string) {
    forall c :: c in s ==> TokenChar(c)
  }

  const ID_LENGTH: nat := 6
  const SECRET_LENGTH: nat := 16

  datatype TokenString = TokenString(id: string, secret: string)

  ghost predicate WellFormed(t: TokenString) {
    |t.id| == ID_LENGTH && |t.secret| == SECRET_LENGTH && TokenChars(t.id) && TokenChars(t.secret)
  }

  /** The string that GetToken hands out. */
  function Print(t: TokenString): string {
    t.id + "." + t.secret
  }

  method AllTokenChars(s: string) returns (ok: bool)
    ensures ok <==> TokenChars(s)
  {
    for i := 0 to |s|
      invariant TokenChars(s[..i])
    {
      if !TokenChar(s[i]) {
        return false;
      }
    }
    assert s[..|s|] == s;
    ok := true;
  }

  /** NewBootstrapToken: the anchored pattern of six and sixteen lower-case letters or digits around a dot.
      A string is accepted exactly when it is the printed form of a well-formed pair, and yields that pair. */
  method NewBootstrapToken(s: string) returns (t: Option<TokenString>)
    ensures t.Some? ==> WellFormed(t.value) && s == Print(t.value)
    ensures t.None? ==> forall u :: WellFormed(u) ==> s != Print(u)
  {
    if |s| != ID_LENGTH + 1 + SECRET_LENGTH || s[ID_LENGTH] != '.' {
      return None;
    }
    var id, secret := s[..ID_LENGTH], s[ID_LENGTH + 1..];
    var idOk := AllTokenChars(id);
    var secretOk := AllTokenChars(secret);
    if idOk && secretOk {
      assert s == id + ['.'] + secret;
      return Some(TokenString(id, secret));
    }
    forall u | WellFormed(u) && (u.id != id || u.secret != secret) ensures s != Print(u) {
      PrintSplits(u);
    }
    t := None;
  }

  /** The pattern, in words: six and sixteen characters, each a digit or a lower-case letter. */
  lemma WellFormedMeans(t: TokenString)
    ensures WellFormed(t)
       <==> |t.id| == 6 && |t.secret| == 16
            && forall c :: c in t.id + t.secret ==> 'a' <= c <= 'z' || '0' <= c <= '9'
  {
    assert forall c :: c in t.id + t.secret <==> c in t.id || c in t.secret;
  }

  /** There is one way to split a printed token. */
  lemma PrintSplits(t: TokenString)
    requires WellFormed(t)
    ensures |Print(t)| == 23 && Print(t)[6] == '.'
    ensures Print(t)[..6] == t.id && Print(t)[7..] == t.secret
  {
  }

  /** Hence no string is the printed form of two pairs. */
  lemma PrintIsInjective(t: TokenString, u: TokenString)
    requires WellFormed(t) && WellFormed(u)
    ensures Print(t) == Print(u) <==> t == u
  {
    PrintSplits(t);
    PrintSplits(u);
  }

  // ---- The Secret ----

  /** Times are whole seconds. */
  datatype BootstrapToken = BootstrapToken(
    token: TokenString,
    description: string,
    ttl: Option<int>,
    expires: Option<int>,
    usages: seq<string>,
    groups: seq<string>)

  const ID_KEY := "token-id"
  const SECRET_KEY := "token-secret"
  const DESCRIPTION_KEY := "description"
  const EXPIRATION_KEY := "expiration"
  const GROUPS_KEY := "auth-extra-groups"
  const USAGE_PREFIX := "usage-bootstrap-"

  type Data = map<string, string>

  /** An explicit expiry wins over a time to live, which counts only when it is positive. */
  function EffectiveExpiry(t: BootstrapToken, now: int): Option<int> {
    if t.expires.Some? then t.expires
    else if t.ttl.Some? && t.ttl.value > 0 then Some(now + t.ttl.value)
    else None
  }

  function FixedData(t: BootstrapToken, now: int, format: int -> string): Data {
    var data := map[ID_KEY := t.token.id, SECRET_KEY := t.token.secret];
    var described := if t.description != "" then data[DESCRIPTION_KEY := t.description] else data;
    var expiry := EffectiveExpiry(t, now);
    if expiry.Some? then described[EXPIRATION_KEY := format(expiry.value)] else described
  }

  function UsageData(usages: seq<string>): Data {
    map u | u in usages :: USAGE_PREFIX + u := "true"
  }

  function SecretData(t: BootstrapToken, now: int, format: int -> string): Data {
    var data := FixedData(t, now, format) + UsageData(t.usages);
    if t.groups != [] then data[GROUPS_KEY := Join(t.groups, ',')] else data
  }

  lemma UsageDataSnoc(usages: seq<string>, u: string)
    ensures UsageData(usages + [u]) == UsageData(usages)[USAGE_PREFIX + u := "true"]
  {
    var more := UsageData(usages + [u]);
    forall v | v in usages + [u] ensures v in usages || v == u {
    }
    assert u in usages + [u];
    assert forall v :: v in usages ==> v in usages + [u];
  }

  /** encodeTokenSecretData: the map is filled in place. */
  method EncodeTokenSecretData(t: BootstrapToken, now: int, format: int -> string) returns (data: Data)
    ensures data == SecretData(t, now, format)
  {
    data := map[ID_KEY := t.token.id, SECRET_KEY := t.token.secret];
    if |t.description| > 0 {
      data := data[DESCRIPTION_KEY := t.description];
    }
    if t.expires.Some? {
      data := data[EXPIRATION_KEY := format(t.expires.value)];
    } else if t.ttl.Some? && t.ttl.value > 0 {
      data := data[EXPIRATION_KEY := format(now + t.ttl.value)];
    }
    data := AddUsages(data, t.usages);
    if |t.groups| > 0 {
      data := data[GROUPS_KEY := Join(t.groups, ',')];
    }
  }

  lemma UsageDataGrows(start: Data, usages: seq<string>, i: nat)
    requires i < |usages|
    ensures start + UsageData(usages[..i + 1]) == (start + UsageData(usages[..i]))[USAGE_PREFIX + usages[i] := "true"]
  {
    UsageDataSnoc(usages[..i], usages[i]);
    assert usages[..i + 1] == usages[..i] + [usages[i]];
  }

  method AddUsages(start: Data, usages: seq<string>) returns (data: Data)
    ensures data == start + UsageData(usages)
  {
    data := start;
    assert data == start + UsageData(usages[..0]);
    for i := 0 to |usages|
      invariant data == start + UsageData(usages[..i])
    {
      UsageDataGrows(start, usages, i);
      data := data[USAGE_PREFIX + usages[i] := "true"];
    }
    assert usages[..|usages|] == usages;
  }

  // ---- Reading the Secret back ----

  datatype Decoded = Decoded(
    token: Option<TokenString>,
    description: string,
    expiry: Option<int>,
    usages: set<string>,
    groups: seq<string>)

  function ReadUsages(data: Data): set<string> {
    set k | k in data && USAGE_PREFIX <= k :: k[|USAGE_PREFIX|..]
  }

  function Decode(data: Data, parse: string -> Option<int>): Decoded {
    Decoded(
      if ID_KEY in data && SECRET_KEY in data then Some(TokenString(data[ID_KEY], data[SECRET_KEY])) else None,
      if DESCRIPTION_KEY in data then data[DESCRIPTION_KEY] else "",
      if EXPIRATION_KEY in data then parse(data[EXPIRATION_KEY]) else None,
      ReadUsages(data),
      if GROUPS_KEY in data then Split(data[GROUPS_KEY], ',') else [])
  }

  predicate FixedKey(k: string) {
    k == ID_KEY || k == SECRET_KEY || k == DESCRIPTION_KEY || k == EXPIRATION_KEY || k == GROUPS_KEY
  }

  /** No usage, whatever its name, can collide with one of the other keys. */
  lemma UsageKeysAreApart(k: string)
    requires FixedKey(k)
    ensures !(USAGE_PREFIX <= k)
  {
    assert USAGE_PREFIX[0] == 'u' && ID_KEY[0] == 't' && SECRET_KEY[0] == 't' && DESCRIPTION_KEY[0] == 'd';
    assert EXPIRATION_KEY[0] == 'e' && GROUPS_KEY[0] == 'a';
  }

  lemma UsageKeysArePrefixed(usages: seq<string>, k: string)
    ensures k in UsageData(usages) <==> USAGE_PREFIX <= k && k[|USAGE_PREFIX|..] in usages
  {
    if k in UsageData(usages) {
      var u :| u in usages && USAGE_PREFIX + u == k;
      assert k[|USAGE_PREFIX|..] == u;
    }
    if USAGE_PREFIX <= k && k[|USAGE_PREFIX|..] in usages {
      assert USAGE_PREFIX + k[|USAGE_PREFIX|..] == k;
    }
  }

  /** What is stored under a fixed key is not disturbed by the usages. */
  lemma FixedKeysReadBack(t: BootstrapToken, now: int, format: int -> string, k: string)
    requires FixedKey(k)
    ensures var data := SecretData(t, now, format);
            var fixed := FixedData(t, now, format);
            if k == GROUPS_KEY && t.groups != [] then k in data && data[k] == Join(t.groups, ',')
            else (k in data <==> k in fixed) && (k in fixed ==> data[k] == fixed[k])
  {
    UsageKeysAreApart(k);
    UsageKeysArePrefixed(t.usages, k);
  }

  lemma OnlyUsagesArePrefixed(t: BootstrapToken, now: int, format: int -> string, k: string)
    requires USAGE_PREFIX <= k
    ensures k in SecretData(t, now, format) <==> k[|USAGE_PREFIX|..] in t.usages
  {
    if FixedKey(k) {
      UsageKeysAreApart(k);
    }
    UsageKeysArePrefixed(t.usages, k);
  }

  lemma UsagesReadBack(t: BootstrapToken, now: int, format: int -> string)
    ensures ReadUsages(SecretData(t, now, format)) == set u | u in t.usages
  {
    var data := SecretData(t, now, format);
    forall u | u in t.usages ensures u in ReadUsages(data) {
      var k := USAGE_PREFIX + u;
      assert k[|USAGE_PREFIX|..] == u;
      OnlyUsagesArePrefixed(t, now, format, k);
    }
    forall u | u in ReadUsages(data) ensures u in t.usages {
      var k :| k in data && USAGE_PREFIX <= k && u == k[|USAGE_PREFIX|..];
      OnlyUsagesArePrefixed(t, now, format, k);
    }
  }

  lemma FixedDataContents(t: BootstrapToken, now: int, format: int -> string)
    ensures var fixed := FixedData(t, now, format);
            && ID_KEY in fixed && fixed[ID_KEY] == t.token.id
            && SECRET_KEY in fixed && fixed[SECRET_KEY] == t.token.secret
            && (DESCRIPTION_KEY in fixed <==> t.description != "")
            && (t.description != "" ==> fixed[DESCRIPTION_KEY] == t.description)
            && (EXPIRATION_KEY in fixed <==> EffectiveExpiry(t, now).Some?)
            && (EffectiveExpiry(t, now).Some? ==> fixed[EXPIRATION_KEY] == format(EffectiveExpiry(t, now).value))
            && GROUPS_KEY !in fixed
  {
    assert |ID_KEY| == 8 && |SECRET_KEY| == 12 && |DESCRIPTION_KEY| == 11;
    assert |EXPIRATION_KEY| == 10 && |GROUPS_KEY| == 17;
  }

  /** The Secret, key by key, and nothing else is in it. */
  lemma SecretWrittenOut(t: BootstrapToken, now: int, format: int -> string)
    ensures var data := SecretData(t, now, format);
            && "token-id" in data && data["token-id"] == t.token.id
            && "token-secret" in data && data["token-secret"] == t.token.secret
            && ("description" in data <==> t.description != "")
            && (t.description != "" ==> data["description"] == t.description)
            && ("expiration" in data <==> t.expires.Some? || (t.ttl.Some? && t.ttl.value > 0))
            && (t.expires.Some? ==> data["expiration"] == format(t.expires.value))
            && (t.expires.None? && t.ttl.Some? && t.ttl.value > 0 ==> data["expiration"] == format(now + t.ttl.value))
            && ("auth-extra-groups" in data <==> t.groups != [])
            && (t.groups != [] ==> data["auth-extra-groups"] == Join(t.groups, ','))
            && (forall u :: u in t.usages ==> "usage-bootstrap-" + u in data && data["usage-bootstrap-" + u] == "true")
            && (forall k :: k in data ==> FixedKey(k) || ("usage-bootstrap-" <= k && k[16..] in t.usages))
  {
    FixedDataContents(t, now, format);
    FixedKeysReadBack(t, now, format, ID_KEY);
    FixedKeysReadBack(t, now, format, SECRET_KEY);
    FixedKeysReadBack(t, now, format, DESCRIPTION_KEY);
    FixedKeysReadBack(t, now, format, EXPIRATION_KEY);
    FixedKeysReadBack(t, now, format, GROUPS_KEY);
    UsagesWrittenOut(t, now, format);
  }

  lemma UsagesWrittenOut(t: BootstrapToken, now: int, format: int -> string)
    ensures var data := SecretData(t, now, format);
            && (forall u :: u in t.usages ==> USAGE_PREFIX + u in data && data[USAGE_PREFIX + u] == "true")
            && (forall k :: k in data ==> FixedKey(k) || (USAGE_PREFIX <= k && k[|USAGE_PREFIX|..] in t.usages))
  {
    var data := SecretData(t, now, format);
    forall u | u in t.usages ensures USAGE_PREFIX + u in data && data[USAGE_PREFIX + u] == "true" {
      UsageKeysArePrefixed(t.usages, USAGE_PREFIX + u);
      assert (USAGE_PREFIX + u)[|USAGE_PREFIX|..] == u;
      UsageKeysAreApart(GROUPS_KEY);
    }
    forall k | k in data && !FixedKey(k) ensures USAGE_PREFIX <= k && k[|USAGE_PREFIX|..] in t.usages {
      UsageKeysArePrefixed(t.usages, k);
    }
  }

  /** Everything but the order and repetition of usages can be read back from the Secret; the groups
      exactly when none of them contains a comma. */
  lemma SecretRoundTrip(t: BootstrapToken, now: int, format: int -> string, parse: string -> Option<int>)
    requires forall s :: parse(format(s)) == Some(s)
    ensures var d := Decode(SecretData(t, now, format), parse);
            && d.token == Some(t.token)
            && d.description == t.description
            && d.expiry == EffectiveExpiry(t, now)
            && d.usages == (set u | u in t.usages)
            && (d.groups == t.groups <==> forall g :: g in t.groups ==> ',' !in g)
  {
    FixedDataContents(t, now, format);
    FixedKeysReadBack(t, now, format, ID_KEY);
    FixedKeysReadBack(t, now, format, SECRET_KEY);
    FixedKeysReadBack(t, now, format, DESCRIPTION_KEY);
    FixedKeysReadBack(t, now, format, EXPIRATION_KEY);
    FixedKeysReadBack(t, now, format, GROUPS_KEY);
    UsagesReadBack(t, now, format);
    if EffectiveExpiry(t, now).Some? {
      var expiry := EffectiveExpiry(t, now).value;
      assert parse(format(expiry)) == Some(expiry);
      assert SecretData(t, now, format)[EXPIRATION_KEY] == format(expiry);
    }
    if t.groups != [] {
      JoinRoundTrip(t.groups, ',');
    }
  }

  // ---- GetToken ----

  const DAY: int := 24 * 60 * 60
  const NODE_GROUP := "system:" + "bootstrappers:" + "kubeadm:" + "default-node-token"

  function Issued(t: TokenString): BootstrapToken {
    BootstrapToken(t, "", Some(DAY), None, ["signing", "authentication"], [NODE_GROUP])
  }

  function SecretName(id: string): string {
    "bootstrap-token-" + id
  }

  /** Each token has a Secret of its own, named after its identifier. */
  lemma SecretNames(a: string, b: string)
    ensures SecretName(a) == "bootstrap-token-" + a
    ensures SecretName(a) == SecretName(b) <==> a == b
  {
    assert SecretName(a)[16..] == a && SecretName(b)[16..] == b;
  }

  /** What the cluster decides while a token is issued: whether the lookup answers with an error although
      the Secret may exist, what others store before the create, and whether create and update fail. */
  datatype World = World(lookupFails: bool, others: map<string, Data>, createFails: bool, updateFails: bool)

  /** A Secret can be created, or, if there is one of its name, updated. */
  predicate Storable(secrets: map<string, Data>, name: string, w: World) {
    !w.createFails && (name in secrets ==> !w.updateFails)
  }

  class SecretStore {
    var secrets: map<string, Data>

    constructor (secrets: map<string, Data>)
      ensures this.secrets == secrets
    {
      this.secrets := secrets;
    }

    /** Create, and when the Secret has come into being meanwhile, update. */
    method CreateOrUpdate(name: string, data: Data, w: World) returns (err: bool)
      modifies this
      ensures err <==> !Storable(old(secrets) + w.others, name, w)
      ensures secrets == if err then old(secrets) + w.others else (old(secrets) + w.others)[name := data]
    {
      secrets := secrets + w.others;
      if w.createFails {
        return true;
      }
      if name in secrets {
        if w.updateFails {
          return true;
        }
        secrets := secrets[name := data];
      } else {
        secrets := secrets[name := data];
      }
      err := false;
    }

    /** A token is handed out exactly when the generated one is well formed, no Secret of its name is seen and
        its Secret could be stored; it is then the generated one, and its Secret and no other was written. */
    method GetToken(generated: string, now: int, format: int -> string, w: World) returns (token: Option<string>)
      modifies this
      ensures token.Some? ==> token.value == generated
      ensures (forall t :: WellFormed(t) ==> generated != Print(t)) ==> token.None? && secrets == old(secrets)
      ensures forall t :: WellFormed(t) && generated == Print(t) ==>
                            var name := SecretName(t.id);
                            var seen := !w.lookupFails && name in old(secrets);
                            && (token.Some? <==> !seen && Storable(old(secrets) + w.others, name, w))
                            && secrets == if seen then old(secrets)
                                          else if token.None? then old(secrets) + w.others
                                          else (old(secrets) + w.others)[name := SecretData(Issued(t), now, format)]
    {
      var parsed := NewBootstrapToken(generated);
      if parsed.None? {
        return None;
      }
      var t := parsed.value;
      forall u | WellFormed(u) && generated == Print(u) ensures u == t {
        PrintIsInjective(t, u);
      }
      var name := SecretName(t.id);
      if !w.lookupFails && name in secrets {
        return None;
      }
      var data := EncodeTokenSecretData(Issued(t), now, format);
      var err := CreateOrUpdate(name, data, w);
      if err {
        return None;
      }
      token := Some(Print(t));
    }
  }

  lemma NodeGroupHasNoComma()
    ensures ',' !in NODE_GROUP
  {
    var a, b, c, d := "system:", "bootstrappers:", "kubeadm:", "default-node-token";
    assert ',' !in a && ',' !in b && ',' !in c && ',' !in d;
  }

  lemma IssuedReadsBack(t: TokenString, now: int, format: int -> string, parse: string -> Option<int>)
    requires forall s :: parse(format(s)) == Some(s)
    ensures var d := Decode(SecretData(Issued(t), now, format), parse);
            && d.token == Some(t) && d.description == "" && d.expiry == Some(now + DAY)
            && d.usages == {"signing", "authentication"} && d.groups == [NODE_GROUP]
  {
    var i := Issued(t);
    SecretRoundTrip(i, now, format, parse);
    NodeGroupHasNoComma();
    assert i.groups == [NODE_GROUP];
  }

  lemma NodeGroupIs()
    ensures NODE_GROUP == "system:bootstrappers:kubeadm:default-node-token"
  {
    assert "system:" + "bootstrappers:" == "system:bootstrappers:";
  }

  /** The Secret of an issued token says: this token, one day, both usages, the node group. */
  lemma IssuedSecretReadsBack(t: TokenString, now: int, format: int -> string, parse: string -> Option<int>)
    requires forall s :: parse(format(s)) == Some(s)
    ensures var d := Decode(SecretData(Issued(t), now, format), parse);
            && d.token == Some(t) && d.description == "" && d.expiry == Some(now + 86400)
            && d.usages == {"signing", "authentication"}
            && d.groups == ["system:bootstrappers:kubeadm:default-node-token"]
  {
    IssuedReadsBack(t, now, format, parse);
    NodeGroupIs();
  }
}
