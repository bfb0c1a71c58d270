/** Plugin start and stop: the subscription list and the icon base path
    are the plugin's only state. */
module Lifecycle {
  import opened Assets

  /** An unsubscribe callback handed back by the subscription manager. */
  datatype Unsubscribe = Unsubscribe(id: nat)

  datatype PluginState = PluginState(subscriptions: seq<Unsubscribe>, imgBasePath: string)

  /** The state right after the plugin object is created. */
  const Initial := PluginState([], "")

  /** `doStartup`: the subscription manager appends its unsubscribe
      callbacks (`registered`) to the list, then `initFs` picks the base path. */
  function Start(s: PluginState, registered: seq<Unsubscribe>, resolvedDataDir: string, accessible: string -> bool): (t: PluginState)
    ensures s.subscriptions <= t.subscriptions && t.subscriptions[|s.subscriptions|..] == registered
    ensures t.imgBasePath == s.imgBasePath || accessible(t.imgBasePath)
  {
    PluginState(s.subscriptions + registered, InitFs(s.imgBasePath, resolvedDataDir, accessible))
  }

  /** `doShutdown`: calls every unsubscribe callback once, in list order,
      then empties the list; the base path is left as it was. */
  method Shutdown(s: PluginState) returns (called: seq<Unsubscribe>, t: PluginState)
    ensures called == s.subscriptions
    ensures t.subscriptions == [] && t.imgBasePath == s.imgBasePath
  {
    called := [];
    var i := 0;
    while i < |s.subscriptions|
      invariant 0 <= i <= |s.subscriptions|
      invariant called == s.subscriptions[..i]
    {
      called := called + [s.subscriptions[i]];
      i := i + 1;
    }
    t := s.(subscriptions := []);
  }

  /** A first start where neither icon directory is accessible leaves the
      base path empty. */
  lemma FirstStartWithoutAssets(registered: seq<Unsubscribe>, resolvedDataDir: string, accessible: string -> bool)
    requires !accessible(ProductionPath(Anchor(resolvedDataDir)))
    requires !accessible(DevelopmentPath(Anchor(resolvedDataDir)))
    ensures Start(Initial, registered, resolvedDataDir, accessible).imgBasePath == ""
  {
  }

  /** The base path is not cleared on stop: a later start that finds no
      icon directory keeps the path chosen by the earlier start. */
  lemma RestartKeepsEarlierBase(s: PluginState, registered: seq<Unsubscribe>, resolvedDataDir: string,
                                accessible: string -> bool)
    requires !accessible(ProductionPath(Anchor(resolvedDataDir)))
    requires !accessible(DevelopmentPath(Anchor(resolvedDataDir)))
    ensures Start(s.(subscriptions := []), registered, resolvedDataDir, accessible) == PluginState(registered, s.imgBasePath)
  {
  }
}
