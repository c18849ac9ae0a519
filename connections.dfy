/**
 * A network connection as read from the configuration service
 * (read_connections.py, class Connection), once its settings and secrets are
 * fetched, and the accessors that decide its security type and key.
 */
module Connections {
  import opened Common
  import opened OrderedDict
  import opened Settings
  import opened Secrets

  const Wireless := "802-11-wireless"
  const WirelessSecurity := "802-11-wireless-security"
  const WepKey0 := "wep-key0"
  const Psk := "psk"

  /** The settings whose secrets are merged into a connection's configuration, in order. */
  const SecretSettings := [Wireless, WirelessSecurity, "802-1x", "gsm", "cdma", "ppp"]

  /** A connection: its whole configuration and its wireless-security setting. */
  datatype Connection = Connection(config: Config, security: Dict) {

    /** get_sec_type: "WEP" when the security setting holds a WEP key, "WPA" otherwise. */
    function SecType(): (t: string)
      ensures t == "WEP" || t == "WPA"
      ensures t == "WEP" <==> HasKey(security, WepKey0)
    {
      if HasKey(security, WepKey0) then "WEP" else "WPA"
    }

    /** get_key: the WEP key for a WEP connection, otherwise the pre-shared key, if any. */
    function GetKey(): (k: Option<Value>)
      ensures SecType() == "WEP" ==> k.Some? && k == Get(security, WepKey0)
      ensures SecType() == "WPA" ==> k == Get(security, Psk)
      ensures k.None? <==> !HasKey(security, WepKey0) && !HasKey(security, Psk)
    {
      if SecType() == "WEP" then Get(security, WepKey0) else Get(security, Psk)
    }

    /** get_passphrase: the key as get_key gives it (no encoding is applied). */
    function GetPassphrase(): (k: Option<Value>)
      ensures k == GetKey()
    {
      GetKey()
    }

    /**
     * get_ssid: the text of the SSID in the wireless setting. A missing setting
     * or SSID raises KeyError; a value that is not text cannot be decoded.
     */
    function GetSsid(): (r: Option<string>)
      ensures r.Some? <==> Lookup(config, Wireless, "ssid").Some? && Lookup(config, Wireless, "ssid").value.Scalar?
      ensures r.Some? ==> Lookup(config, Wireless, "ssid") == Some(Scalar(r.value))
    {
      match Lookup(config, Wireless, "ssid")
      case Some(Scalar(t)) => Some(t)
      case _ => None
    }
  }

  /** The connection Connection.__init__ builds from a configuration with its secrets merged. */
  function FromConfig(config: Config): Connection {
    Connection(config, match Get(config, WirelessSecurity) case Some(body) => body case None => [])
  }

  /** A connection's security type is WEP exactly when its configuration holds a WEP key. */
  lemma FromConfigSecType(config: Config)
    ensures FromConfig(config).SecType() == "WEP" <==> Lookup(config, WirelessSecurity, WepKey0).Some?
  {
  }

  /** Without a wireless-security setting, a connection counts as WPA and has no key. */
  lemma MissingSecurity(config: Config)
    requires !HasKey(config, WirelessSecurity)
    ensures FromConfig(config).SecType() == "WPA"
    ensures FromConfig(config).GetKey() == None
  {
  }

  /** The configuration after merge_secrets has run for each setting in `names`, in order. */
  function MergeEach(config: Config, getSecrets: string -> Option<Config>, names: seq<string>): (r: Config)
    ensures Keys(r) == Keys(config)
    decreases |names|
  {
    if names == [] then config
    else MergeEach(Merged(config, getSecrets(names[0]), names[0]), getSecrets, names[1..])
  }

  lemma MergeEachStep(config: Config, getSecrets: string -> Option<Config>, names: seq<string>, name: string)
    requires names != [] && names[0] == name
    ensures MergeEach(config, getSecrets, names)
            == MergeEach(Merged(config, getSecrets(name), name), getSecrets, names[1..])
  {
  }

  /**
   * Connection.__init__ once GetSettings has returned `config`: merges the secrets
   * GetSecrets returns for each setting (`getSecrets(name)`, None when the call
   * raised) and keeps the wireless-security setting.
   */
  method Load(config: Config, getSecrets: string -> Option<Config>) returns (c: Connection)
    ensures c == FromConfig(MergeEach(config, getSecrets, SecretSettings))
    ensures Keys(c.config) == Keys(config)
  {
    var settings := new ConnectionSettings(config);
    ghost var todo := SecretSettings;
    MergeEachStep(settings.config, getSecrets, todo, Wireless);
    settings.MergeSecrets(getSecrets(Wireless), Wireless);
    todo := todo[1..];
    MergeEachStep(settings.config, getSecrets, todo, WirelessSecurity);
    settings.MergeSecrets(getSecrets(WirelessSecurity), WirelessSecurity);
    todo := todo[1..];
    MergeEachStep(settings.config, getSecrets, todo, "802-1x");
    settings.MergeSecrets(getSecrets("802-1x"), "802-1x");
    todo := todo[1..];
    MergeEachStep(settings.config, getSecrets, todo, "gsm");
    settings.MergeSecrets(getSecrets("gsm"), "gsm");
    todo := todo[1..];
    MergeEachStep(settings.config, getSecrets, todo, "cdma");
    settings.MergeSecrets(getSecrets("cdma"), "cdma");
    todo := todo[1..];
    MergeEachStep(settings.config, getSecrets, todo, "ppp");
    settings.MergeSecrets(getSecrets("ppp"), "ppp");
    todo := todo[1..];
    c := FromConfig(settings.config);
  }
}
