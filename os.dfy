/** The browser stand-in for the Node.js `os` module: a platform guess from
    the environment, an architecture default and constant stubs. */
module OsPolyfill {
  import opened Strings
  import opened Wrappers

  /** What the polyfill can see of its surroundings: `process.platform` and
      `process.arch` (None when `process` or the property is undefined) and
      `navigator.userAgent` (None when `navigator` is undefined). */
  datatype Env = Env(processPlatform: Option<string>, processArch: Option<string>, userAgent: Option<string>)

  /** A property read that JavaScript treats as truthy: present and non-empty. */
  predicate Truthy(o: Option<string>) {
    o.Some? && o.value != ""
  }

  /** The platform guessed from a user agent, or None when no keyword matches. */
  function AgentPlatform(userAgent: string): (r: Option<string>)
    ensures r.Some? ==> r.value in {"win32", "darwin", "linux"}
    ensures r == None <==> !Contains(Lower(userAgent), "win") && !Contains(Lower(userAgent), "mac")
                           && !Contains(Lower(userAgent), "linux")
  {
    var agent := Lower(userAgent);
    if Contains(agent, "win") then Some("win32")
    else if Contains(agent, "mac") then Some("darwin")
    else if Contains(agent, "linux") then Some("linux")
    else None
  }

  /** `getPlatform()`, which `platform()` and `type()` both are. */
  function Platform(env: Env): (r: string)
    ensures Truthy(env.processPlatform) ==> r == env.processPlatform.value
    ensures !Truthy(env.processPlatform) ==> r in {"win32", "darwin", "linux"}
    ensures (!Truthy(env.processPlatform) && env.userAgent.Some? && AgentPlatform(env.userAgent.value).Some?)
      ==> r == AgentPlatform(env.userAgent.value).value
    ensures (!Truthy(env.processPlatform) && (env.userAgent == None || AgentPlatform(env.userAgent.value) == None))
      ==> r == "darwin"
  {
    if Truthy(env.processPlatform) then env.processPlatform.value
    else if env.userAgent.Some? && AgentPlatform(env.userAgent.value).Some? then AgentPlatform(env.userAgent.value).value
    else "darwin"
  }

  /** The keywords are tried in order and the first that occurs wins: an agent
      that mentions Windows is 'win32' even when it also names a Mac. */
  lemma AgentKeywordOrder(userAgent: string)
    ensures Contains(Lower(userAgent), "win") ==> AgentPlatform(userAgent) == Some("win32")
    ensures (!Contains(Lower(userAgent), "win") && Contains(Lower(userAgent), "mac"))
      ==> AgentPlatform(userAgent) == Some("darwin")
    ensures (!Contains(Lower(userAgent), "win") && !Contains(Lower(userAgent), "mac")
             && Contains(Lower(userAgent), "linux"))
      ==> AgentPlatform(userAgent) == Some("linux")
  {
  }

  /** Matching is case-insensitive and by substring, so an agent naming
      "Darwin" reads as Windows because "darwin" contains "win". */
  lemma DarwinAgentReadsAsWindows(prefix: string, suffix: string)
    ensures Platform(Env(None, None, Some(prefix + "Darwin" + suffix))) == "win32"
  {
    var agent := prefix + "Darwin" + suffix;
    var lower := Lower(agent);
    assert lower == Lower(prefix) + "darwin" + Lower(suffix) by {
      assert Lower(prefix + "Darwin" + suffix)[|prefix|..|prefix| + 6] == "darwin";
      assert |lower| == |Lower(prefix) + "darwin" + Lower(suffix)|;
      forall i | 0 <= i < |lower| ensures lower[i] == (Lower(prefix) + "darwin" + Lower(suffix))[i] {
        if i < |prefix| {
        } else if i < |prefix| + 6 {
        } else {
          assert agent[i] == suffix[i - |prefix| - 6];
        }
      }
    }
    assert Lower(prefix) + "darwin" + Lower(suffix) == (Lower(prefix) + "dar") + "win" + Lower(suffix);
    ContainsAt(Lower(prefix) + "dar", "win", Lower(suffix));
  }

  /** `arch()`: `process.arch` when it is truthy, else 'x64'. */
  function Arch(env: Env): (r: string)
    ensures r != ""
    ensures Truthy(env.processArch) ==> r == env.processArch.value
    ensures !Truthy(env.processArch) ==> r == "x64"
  {
    if Truthy(env.processArch) then env.processArch.value else "x64"
  }

  /** The constant stubs: `cpus()` is an empty list, `freemem()`, `totalmem()`
      and `uptime()` are 0, `hostname()` is 'localhost', `release()` is
      '1.0.0' and `networkInterfaces()` is an empty object. */
  const CpuCount: nat := 0
  const FreeMem: nat := 0
  const TotalMem: nat := 0
  const Uptime: nat := 0
  const Hostname: string := "localhost"
  const Release: string := "1.0.0"
  const NetworkInterfaceNames: seq<string> := []
}
