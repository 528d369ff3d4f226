/** The Local AI settings on disk: the device token is sealed by the system keychain when there is one. */
module LocalAiConfig {
  import opened Wrappers
  import opened Json
  import opened LocalAiSpec

  /** The keychain's two halves; unsealing fails for another user or a new keychain. */
  type Sealer = string -> string
  type Unsealer = string -> Option<string>

  datatype Settings = Settings(config: Config, baseUrl: Option<string>)

  function Text(o: Option<string>): Json {
    if o.Some? then Str(o.value) else Null
  }

  function TextIn(row: map<string, Json>, key: string): Option<string> {
    match Get(row, key) case Str(s) => Some(s) case _ => None
  }

  function TokenFields(token: Option<string>, seal: Option<Sealer>): map<string, Json> {
    if !Truthy(token) then map[]
    else if seal.Some? then map["deviceTokenSealed" := Str(seal.value(token.value))]
    else map["deviceToken" := Str(token.value)]
  }

  function SealLocalAiConfig(c: Config, baseUrl: string, seal: Option<Sealer>): map<string, Json> {
    map["enabled" := Bool(c.enabled), "baseUrl" := Str(baseUrl), "model" := Text(c.model), "deviceId" := Text(c.deviceId),
        "orgId" := Text(c.orgId), "userId" := Text(c.userId)]
    + TokenFields(c.deviceToken, seal)
  }

  function UnsealLocalAiConfig(raw: Json, unseal: Option<Unsealer>): Option<Settings> {
    if AsRecord(raw).None? then None
    else
      var row := AsRecord(raw).value;
      var sealed := TextIn(row, "deviceTokenSealed");
      var token :=
        if sealed.None? then TextIn(row, "deviceToken") else if unseal.Some? then unseal.value(sealed.value) else None;
      Some(Settings(
             Config(Get(row, "enabled") == Bool(true), TextIn(row, "model"), token, TextIn(row, "deviceId"),
                    TextIn(row, "orgId"), TextIn(row, "userId")),
             TextIn(row, "baseUrl")))
  }

  /** The token that comes back: a sealed one only through a keychain that can open it. */
  function Restored(token: Option<string>, seal: Option<Sealer>, unseal: Option<Unsealer>): Option<string> {
    if !Truthy(token) then None
    else if seal.None? then token
    else if unseal.None? then None
    else unseal.value(seal.value(token.value))
  }

  /** Everything but the token always comes back as it was; the token as the keychains allow. */
  lemma SettingsComeBack(c: Config, baseUrl: string, seal: Option<Sealer>, unseal: Option<Unsealer>)
    ensures UnsealLocalAiConfig(Obj(SealLocalAiConfig(c, baseUrl, seal)), unseal)
         == Some(Settings(c.(deviceToken := Restored(c.deviceToken, seal, unseal)), Some(baseUrl)))
  {
    hide SealLocalAiConfig;
    StoredFields(c, baseUrl, seal);
  }

  lemma StoredFields(c: Config, baseUrl: string, seal: Option<Sealer>)
    ensures var row := SealLocalAiConfig(c, baseUrl, seal);
            && Get(row, "enabled") == Bool(c.enabled) && TextIn(row, "baseUrl") == Some(baseUrl)
            && TextIn(row, "model") == c.model && TextIn(row, "deviceId") == c.deviceId
            && TextIn(row, "orgId") == c.orgId && TextIn(row, "userId") == c.userId
            && Get(row, "deviceTokenSealed") == Get(TokenFields(c.deviceToken, seal), "deviceTokenSealed")
            && Get(row, "deviceToken") == Get(TokenFields(c.deviceToken, seal), "deviceToken")
  {
  }

  /** The pairing survives a restart exactly when there is no token, or one that is kept and can be opened again. */
  lemma RoundTripIff(c: Config, baseUrl: string, seal: Option<Sealer>, unseal: Option<Unsealer>)
    ensures UnsealLocalAiConfig(Obj(SealLocalAiConfig(c, baseUrl, seal)), unseal) == Some(Settings(c, Some(baseUrl))) <==>
              || c.deviceToken.None?
              || (c.deviceToken.value != "" &&
                  (seal.Some? ==> unseal.Some? && unseal.value(seal.value(c.deviceToken.value)) == c.deviceToken))
  {
    hide SealLocalAiConfig, UnsealLocalAiConfig;
    SettingsComeBack(c, baseUrl, seal, unseal);
  }

  /** Whatever is on disk: answering is on only where it says so outright, and no text is no setting. */
  lemma UnsealReads(raw: Json, unseal: Option<Unsealer>)
    ensures UnsealLocalAiConfig(raw, unseal).Some? <==> AsRecord(raw).Some?
    ensures AsRecord(raw).Some? ==>
              var row, s := AsRecord(raw).value, UnsealLocalAiConfig(raw, unseal).value;
              && (s.config.enabled <==> Get(row, "enabled") == Bool(true))
              && (forall text :: s.config.model == Some(text) <==> Get(row, "model") == Str(text))
              && (forall text :: s.config.userId == Some(text) <==> Get(row, "userId") == Str(text))
              && (forall text :: s.config.orgId == Some(text) <==> Get(row, "orgId") == Str(text))
              && (Get(row, "deviceTokenSealed") == Null ==>
                    forall text :: s.config.deviceToken == Some(text) <==> Get(row, "deviceToken") == Str(text))
  {
  }

  /** A sealed token is opened or lost: a readable one beside it is never taken in its place. */
  lemma SealedIsNotReplaced(raw: Json, unseal: Option<Unsealer>, sealed: string)
    requires AsRecord(raw).Some? && Get(AsRecord(raw).value, "deviceTokenSealed") == Str(sealed)
    ensures UnsealLocalAiConfig(raw, unseal).Some?
    ensures UnsealLocalAiConfig(raw, unseal).value.config.deviceToken == if unseal.Some? then unseal.value(sealed) else None
  {
  }

  /** Without a pairing no token is on disk, and with a keychain never a readable one. */
  lemma NoTokenLeftBehind(c: Config, baseUrl: string, seal: Option<Sealer>)
    ensures var row := SealLocalAiConfig(c, baseUrl, seal);
            && (!HasToken(c) ==> "deviceToken" !in row && "deviceTokenSealed" !in row)
            && (seal.Some? ==> "deviceToken" !in row)
  {
  }

  /** Unpairing, saving and starting again leaves the service unpaired, whatever was on disk before. */
  lemma UnpairedStaysUnpaired(s: State, baseUrl: string, seal: Option<Sealer>, unseal: Option<Unsealer>)
    ensures var c := Step(s, User(Unpair)).sh.config;
            var back := UnsealLocalAiConfig(Obj(SealLocalAiConfig(c, baseUrl, seal)), unseal);
            back.Some? && !HasToken(back.value.config) && !Wanted(back.value.config)
  {
    hide SealLocalAiConfig, UnsealLocalAiConfig;
    SettingsComeBack(Step(s, User(Unpair)).sh.config, baseUrl, seal, unseal);
  }
}
