/**
 * The label of a server card (src/components/utils/getDisplayName.ts): its `server_name`,
 * else its `listen` value, else a placeholder.
 */
module DisplayName {
  import opened Wrappers
  import opened Strings
  import opened Seqs
  import opened ConfigTypes

  const UnnamedServer: string := "未命名伺服器"

  /** `getParamValue(keyword)`: the first parameter value of the first item whose path mentions the keyword. */
  function ParamValue(server: ConfigBlock, keyword: string): (r: Option<string>)
    ensures var i := FindFirst(server.configItems, (it: ConfigItem) => Contains(it.path, keyword));
      r.Some? <==> i.Some? && |server.configItems[i.value].params| > 0
    ensures r.Some? ==>
      r.value == server.configItems[FindFirst(server.configItems, (it: ConfigItem) => Contains(it.path, keyword)).value].params[0].value
  {
    match FindFirst(server.configItems, (it: ConfigItem) => Contains(it.path, keyword))
    case None => None
    case Some(i) =>
      var it := server.configItems[i];
      if |it.params| > 0 then Some(it.params[0].value) else None
  }

  /** JavaScript truthiness of an optional string: defined and non-empty. */
  predicate Truthy(v: Option<string>) {
    v.Some? && v.value != ""
  }

  /** `serverName || listen || "未命名伺服器"` */
  function GetDisplayName(server: ConfigBlock): (name: string)
    ensures name != ""
  {
    var serverName := ParamValue(server, "server_name");
    var listen := ParamValue(server, "listen");
    if Truthy(serverName) then serverName.value
    else if Truthy(listen) then listen.value
    else UnnamedServer
  }

  /** Which of the three sources the name comes from. */
  lemma DisplayNameFallback(server: ConfigBlock)
    ensures var sn, ls := ParamValue(server, "server_name"), ParamValue(server, "listen");
      && (Truthy(sn) ==> GetDisplayName(server) == sn.value)
      && (!Truthy(sn) && Truthy(ls) ==> GetDisplayName(server) == ls.value)
      && (!Truthy(sn) && !Truthy(ls) ==> GetDisplayName(server) == UnnamedServer)
  {
  }

  /**
   * Only the first matching item is consulted: when it has no parameters the lookup gives
   * nothing, even if a later item also matches and has a value.
   */
  lemma FirstMatchDecides(server: ConfigBlock, keyword: string, i: nat)
    requires i < |server.configItems| && Contains(server.configItems[i].path, keyword)
    requires forall j :: 0 <= j < i ==> !Contains(server.configItems[j].path, keyword)
    ensures ParamValue(server, keyword) ==
      (if |server.configItems[i].params| > 0 then Some(server.configItems[i].params[0].value) else None)
  {
    var f := (it: ConfigItem) => Contains(it.path, keyword);
    assert f(server.configItems[i]);
  }

  /** The server's own parameters play no part in its name. */
  lemma OwnParamsIgnored(server: ConfigBlock, ps: seq<Param>)
    ensures GetDisplayName(server.(params := ps)) == GetDisplayName(server)
  {
  }
}
