/**
 * The version-pinned tools factory of NuGetTools (`SingletonToolsFactory`).
 *
 * The factory is built from one tools service and one framework-precedence
 * service. It copies the tools service's `Version` once, at construction, and
 * then answers every request against that single version: a request for exactly
 * that string gets the stored service, any other string gets `None` (C# `null`).
 * The three fields are `readonly` in the source and `const` here, so no
 * accessor can change them.
 *
 * The async accessors complete at once through `Task.FromResult` and never
 * read their cancellation token; here they are plain functions of the same
 * inputs plus the token.
 */
module Tools {
  import opened Wrappers

  /** The cancellation signal the async accessors accept and never read. */
  datatype CancellationToken = CancellationToken(isCancellationRequested: bool)

  /** One call a client of `IToolsFactory` can make on the factory. */
  datatype Call =
    | GetAvailableVersionsCall
    | GetServiceCall(version: string)
    | GetAvailableVersionsAsyncCall(token: CancellationToken)
    | GetServiceAsyncCall(version: string, token: CancellationToken)
    | GetFrameworkPrecedenceServiceAsyncCall(version: string, token: CancellationToken)

  /** What one call hands back. */
  datatype Response<TS, FPS> =
    | VersionList(versions: seq<string>)
    | ToolsServiceResult(tools: Option<TS>)
    | PrecedenceServiceResult(precedence: Option<FPS>)

  /** The async counterpart of a call: each synchronous call becomes its
      `...Async` form carrying `token`; async calls are left as they are. */
  function AsAsync(c: Call, token: CancellationToken): (a: Call)
    ensures !a.GetAvailableVersionsCall? && !a.GetServiceCall?
    ensures c.GetServiceCall? ==> a == GetServiceAsyncCall(c.version, token)
  {
    match c
    case GetAvailableVersionsCall => GetAvailableVersionsAsyncCall(token)
    case GetServiceCall(v) => GetServiceAsyncCall(v, token)
    case _ => c
  }

  /** A whole sequence of calls rewritten to the async calling convention. */
  function AllAsAsync(calls: seq<Call>, token: CancellationToken): (r: seq<Call>)
    ensures |r| == |calls|
    ensures forall i :: 0 <= i < |r| ==> !r[i].GetAvailableVersionsCall? && !r[i].GetServiceCall?
  {
    if calls == [] then [] else [AsAsync(calls[0], token)] + AllAsAsync(calls[1..], token)
  }

  /**
   * `TS` stands for `IToolsService` and `FPS` for `IFrameworkPrecedenceService`;
   * both are opaque to the factory, which only stores and returns them.
   * The framework-precedence service is stored as given, null (`None`)
   * included; the tools service cannot be null (see the constructor).
   */
  class SingletonToolsFactory<TS, FPS> {
    const version: string
    const toolsService: TS
    const frameworkPrecedenceService: Option<FPS>

    /** Both services are passed as C# references, `None` standing for null.
        Reading `Version` off a null tools service throws, so the tools
        service must be present. `versionOf` is the `Version` getter; it may
        read the heap, and its value at construction is the one kept. */
    constructor (toolsService: Option<TS>, frameworkPrecedenceService: Option<FPS>, versionOf: TS ~> string)
      requires toolsService.Some?
      requires versionOf.requires(toolsService.value)
      ensures version == old(versionOf(toolsService.value))
      ensures this.toolsService == toolsService.value
      ensures this.frameworkPrecedenceService == frameworkPrecedenceService
    {
      version := versionOf(toolsService.value);
      this.toolsService := toolsService.value;
      this.frameworkPrecedenceService := frameworkPrecedenceService;
    }

    /** The versions this factory serves: the pinned one and nothing else. */
    function GetAvailableVersions(): (r: seq<string>)
      ensures |r| == 1 && r[0] == version
      ensures forall v :: v in r <==> v == version
    {
      [version]
    }

    /** The tools service for `v`, or `None` when `v` is not, character for
        character, the pinned version. */
    function GetService(v: string): (r: Option<TS>)
      ensures r == Some(toolsService) <==> v == version
      ensures r == None <==> v != version
    {
      if v != version then None else Some(toolsService)
    }

    function GetAvailableVersionsAsync(token: CancellationToken): (r: seq<string>)
      ensures r == GetAvailableVersions()
    {
      var versions := [version];
      versions
    }

    function GetServiceAsync(v: string, token: CancellationToken): (r: Option<TS>)
      ensures r == GetService(v)
    {
      if v == version then Some(toolsService) else None
    }

    /** The stored framework-precedence service for `v`, or `None` when `v`
        is not the pinned version. A null stored service gives `None` for the
        pinned version too. There is no synchronous form. */
    function GetFrameworkPrecedenceServiceAsync(v: string, token: CancellationToken): (r: Option<FPS>)
      ensures r.Some? <==> v == version && frameworkPrecedenceService.Some?
      ensures r.Some? ==> r == frameworkPrecedenceService
    {
      if v == version then frameworkPrecedenceService else None
    }

    /** The answer to one call, dispatched to the accessor it names. */
    function Answer(c: Call): Response<TS, FPS>
    {
      match c
      case GetAvailableVersionsCall => VersionList(GetAvailableVersions())
      case GetServiceCall(v) => ToolsServiceResult(GetService(v))
      case GetAvailableVersionsAsyncCall(t) => VersionList(GetAvailableVersionsAsync(t))
      case GetServiceAsyncCall(v, t) => ToolsServiceResult(GetServiceAsync(v, t))
      case GetFrameworkPrecedenceServiceAsyncCall(v, t) =>
        PrecedenceServiceResult(GetFrameworkPrecedenceServiceAsync(v, t))
    }

    /** The answers to a sequence of calls on this factory, in order, each
        worked out from the factory's fields. */
    function Serve(calls: seq<Call>): (rs: seq<Response<TS, FPS>>)
      ensures |rs| == |calls|
    {
      if calls == [] then [] else [Answer(calls[0])] + Serve(calls[1..])
    }

    /** The factory serves a service exactly for the versions it lists. */
    lemma ServedIffListed(v: string, token: CancellationToken)
      ensures GetService(v).Some? <==> v in GetAvailableVersions()
      ensures GetServiceAsync(v, token).Some? <==> v in GetAvailableVersionsAsync(token)
      ensures GetFrameworkPrecedenceServiceAsync(v, token).Some? <==>
                v in GetAvailableVersions() && frameworkPrecedenceService.Some?
    {
    }

    /** A factory built with a null framework-precedence service answers null
        for every version, the pinned one included. */
    lemma NullPrecedenceService(v: string, token: CancellationToken)
      requires frameworkPrecedenceService == None
      ensures GetFrameworkPrecedenceServiceAsync(v, token) == None
    {
    }

    /** The async accessors ignore their token. */
    lemma TokenIgnored(v: string, t1: CancellationToken, t2: CancellationToken)
      ensures GetAvailableVersionsAsync(t1) == GetAvailableVersionsAsync(t2)
      ensures GetServiceAsync(v, t1) == GetServiceAsync(v, t2)
      ensures GetFrameworkPrecedenceServiceAsync(v, t1) == GetFrameworkPrecedenceServiceAsync(v, t2)
    {
    }

    /** Rewriting one call to its async form does not change its answer. */
    lemma AsAsyncAnswer(c: Call, token: CancellationToken)
      ensures Answer(AsAsync(c, token)) == Answer(c)
    {
    }

    /** The `i`-th answer to a sequence of calls is the answer that call gets
        on its own. */
    lemma {:induction false} ServeAt(calls: seq<Call>, i: int)
      requires 0 <= i < |calls|
      ensures Serve(calls)[i] == Answer(calls[i])
    {
      if i > 0 {
        ServeAt(calls[1..], i - 1);
      }
    }

    /** The answers to two batches of calls, joined, are the two batches'
        own answers side by side. */
    lemma {:induction false} ServeAppend(a: seq<Call>, b: seq<Call>)
      ensures Serve(a + b) == Serve(a) + Serve(b)
    {
      if a == [] {
        assert a + b == b;
      } else {
        assert (a + b)[1..] == a[1..] + b;
        ServeAppend(a[1..], b);
      }
    }

    /** A client that switches every call to the async convention, with any
        token, receives exactly the same answers. */
    lemma {:induction false} AsyncTraceAgrees(calls: seq<Call>, token: CancellationToken)
      ensures Serve(AllAsAsync(calls, token)) == Serve(calls)
    {
      if calls != [] {
        var rest := AllAsAsync(calls[1..], token);
        assert AllAsAsync(calls, token)[1..] == rest;
        AsAsyncAnswer(calls[0], token);
        AsyncTraceAgrees(calls[1..], token);
      }
    }

    /** A factory pinned to "1.0.0": the listed versions, the exact match, a
        different version and a trailing space, which is not trimmed. */
    lemma PinnedToOneZeroZero()
      requires version == "1.0.0"
      ensures GetAvailableVersions() == ["1.0.0"]
      ensures GetService("1.0.0") == Some(toolsService)
      ensures GetService("2.0.0") == None
      ensures GetService("1.0.0 ") == None
    {
    }

    /** The match is case-sensitive: a prerelease label in other letters
        is another version. */
    lemma PinnedCaseSensitive(token: CancellationToken)
      requires version == "2.0.0-beta"
      ensures GetService("2.0.0-BETA") == None
      ensures GetServiceAsync("2.0.0-Beta", token) == None
      ensures GetFrameworkPrecedenceServiceAsync("2.0.0-beta", token) == frameworkPrecedenceService
    {
    }

    /** A factory pinned to the empty string serves it like any other version. */
    lemma PinnedToEmpty(token: CancellationToken)
      requires version == ""
      ensures GetService("") == Some(toolsService)
      ensures GetFrameworkPrecedenceServiceAsync("", token) == frameworkPrecedenceService
      ensures GetService(" ") == None
    {
    }
  }
}
