/**
 * Copying a connection's secrets into its configuration (read_connections.py,
 * merge_secrets). The reply of the configuration service's GetSecrets call is a
 * parameter: `None` when the call raised, which merge_secrets swallows.
 */
module Secrets {
  import opened Common
  import opened OrderedDict
  import opened Settings

  /** All (key, value) pairs of a secrets reply, setting after setting, in iteration order. */
  function Flatten(secrets: Config): Dict {
    if secrets == [] then [] else Flatten(secrets[..|secrets| - 1]) + secrets[|secrets| - 1].1
  }

  /** Assigns each pair into a setting, one after the other. */
  function PutAll(body: Dict, pairs: Dict): Dict {
    if pairs == [] then body
    else Put(PutAll(body, pairs[..|pairs| - 1]), pairs[|pairs| - 1].0, pairs[|pairs| - 1].1)
  }

  /** The value of the last pair with key k, if any. */
  function LastValue(pairs: Dict, k: string): (r: Option<Value>)
    ensures r.None? <==> forall i :: 0 <= i < |pairs| ==> pairs[i].0 != k
  {
    if pairs == [] then None
    else if pairs[|pairs| - 1].0 == k then Some(pairs[|pairs| - 1].1)
    else LastValue(pairs[..|pairs| - 1], k)
  }

  /**
   * The configuration after merge_secrets. When GetSecrets raised, or the setting
   * is missing (the first assignment raises KeyError, also swallowed), nothing
   * changes; otherwise every secret is assigned into the setting, in order.
   */
  function Merged(config: Config, secrets: Option<Config>, name: string): (r: Config)
    ensures Keys(r) == Keys(config)
    ensures forall n :: n != name ==> Get(r, n) == Get(config, n)
    ensures secrets.None? || !HasKey(config, name) ==> r == config
  {
    match secrets
    case None => config
    case Some(s) =>
      match Get(config, name)
      case None => config
      case Some(body) =>
        var r := Put(config, name, PutAll(body, Flatten(s)));
        forall n | n != name ensures Get(r, n) == Get(config, n) {
          GetPut(config, name, PutAll(body, Flatten(s)), n);
        }
        r
  }

  /** The last assignment to a key wins; keys never assigned keep their value. */
  lemma {:induction false} PutAllGet(body: Dict, pairs: Dict, k: string)
    ensures Get(PutAll(body, pairs), k) ==
            if LastValue(pairs, k).Some? then LastValue(pairs, k) else Get(body, k)
    decreases |pairs|
  {
    if pairs != [] {
      var last := pairs[|pairs| - 1];
      PutAllGet(body, pairs[..|pairs| - 1], k);
      GetPut(PutAll(body, pairs[..|pairs| - 1]), last.0, last.1, k);
    }
  }

  /**
   * After a successful merge, each key of the setting reads as the value the last
   * secrets setting iterated gave it, and a key no secret names keeps its value.
   */
  lemma MergedSecretWins(config: Config, secrets: Config, name: string, k: string)
    requires HasKey(config, name)
    ensures Lookup(Merged(config, Some(secrets), name), name, k) ==
            if LastValue(Flatten(secrets), k).Some? then LastValue(Flatten(secrets), k)
            else Lookup(config, name, k)
  {
    var body := Get(config, name).value;
    GetPut(config, name, PutAll(body, Flatten(secrets)), name);
    PutAllGet(body, Flatten(secrets), k);
  }

  /** Merging keeps the keys of every setting distinct. */
  lemma {:induction false} PutAllDistinct(body: Dict, pairs: Dict)
    requires DistinctKeys(body)
    ensures DistinctKeys(PutAll(body, pairs))
    decreases |pairs|
  {
    if pairs != [] {
      PutAllDistinct(body, pairs[..|pairs| - 1]);
      PutDistinct(PutAll(body, pairs[..|pairs| - 1]), pairs[|pairs| - 1].0, pairs[|pairs| - 1].1);
    }
  }

  /** One assignment `config[name][k] = v` extends the pairs merged so far by one. */
  lemma AssignStep(start: Config, name: string, body: Dict, pairs: Dict, k: string, v: Value)
    ensures Get(Put(start, name, PutAll(body, pairs)), name) == Some(PutAll(body, pairs))
    ensures Put(Put(start, name, PutAll(body, pairs)), name, Put(PutAll(body, pairs), k, v))
            == Put(start, name, PutAll(body, pairs + [(k, v)]))
  {
    var before := PutAll(body, pairs);
    GetPut(start, name, before, name);
    PutPut(start, name, before, Put(before, k, v));
    assert (pairs + [(k, v)])[..|pairs|] == pairs;
  }

  lemma FlattenStep(s: Config, i: nat)
    requires i < |s|
    ensures Flatten(s[..i + 1]) == Flatten(s[..i]) + s[i].1
  {
    assert s[..i + 1][..i] == s[..i];
  }

  lemma ExtendPrefix(done: Dict, setting: Dict, j: nat)
    requires j < |setting|
    ensures done + setting[..j + 1] == (done + setting[..j]) + [setting[j]]
  {
    assert setting[..j + 1] == setting[..j] + [setting[j]];
  }

  /** A connection's configuration dictionary, which merge_secrets updates in place. */
  class ConnectionSettings {
    var config: Config

    constructor (config: Config)
      ensures this.config == config
    {
      this.config := config;
    }

    /** merge_secrets(proxy, config, settingName), given what GetSecrets returned. */
    method MergeSecrets(secrets: Option<Config>, settingName: string)
      modifies this
      ensures config == Merged(old(config), secrets, settingName)
    {
      if secrets.None? {
        return;  // GetSecrets raised: the exception is swallowed
      }
      var s := secrets.value;
      ghost var start := config;
      ghost var present := HasKey(start, settingName);
      ghost var body := if present then Get(start, settingName).value else [];
      if present {
        PutSame(start, settingName, body);
      }
      assert Flatten(s[..0]) == [];
      for i := 0 to |s|
        invariant present ==> config == Put(start, settingName, PutAll(body, Flatten(s[..i])))
        invariant !present ==> config == start
      {
        var (_, setting) := s[i];
        ghost var done := Flatten(s[..i]);
        assert done + setting[..0] == done;
        for j := 0 to |setting|
          invariant present ==> config == Put(start, settingName, PutAll(body, done + setting[..j]))
          invariant !present ==> config == start
        {
          var (key, value) := setting[j];
          var current := Get(config, settingName);
          if current.None? {
            return;  // config[settingName] raises KeyError, which is swallowed
          }
          AssignStep(start, settingName, body, done + setting[..j], key, value);
          config := Put(config, settingName, Put(current.value, key, value));
          ExtendPrefix(done, setting, j);
        }
        assert setting[..|setting|] == setting;
        FlattenStep(s, i);
      }
      assert s[..|s|] == s;
    }
  }
}
