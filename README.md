# SingletonToolsFactory, modelled in Dafny

NuGetTools' `SingletonToolsFactory` is the `IToolsFactory` that serves exactly
one version of the NuGet tooling. It is built from one tools service and one
framework-precedence service, copies the tools service's `Version` once, and
from then on:

- lists that one version (sync and async);
- returns the stored tools service (sync and async) or the stored
  framework-precedence service (async only) when the requested version string
  is exactly the pinned one, and `null` for every other string.

The model is the class `Tools.SingletonToolsFactory<TS, FPS>` in
`singleton_tools_factory.dfy`. `TS` and `FPS` are the opaque `IToolsService`
and `IFrameworkPrecedenceService`. `null` is `Option.None` (`wrappers.dfy`),
both for the services passed to the constructor and for the accessors'
results. The framework-precedence service is stored as an `Option`, so a null
one is kept and handed back as null, as in the source. String comparison is
Dafny's equality on `seq<char>`; on every string both languages can hold it
agrees with C#'s ordinal `==`/`!=` (a Dafny `char` is a Unicode scalar value,
so C# strings with unpaired surrogates have no counterpart here): no trimming,
no case folding, no range matching.

The factory is immutable because the three `readonly` fields are `const`
fields and every accessor is a function; no lemma is needed for that, and the
lemmas about call sequences below do not add to it. The version getter
`versionOf` is a heap-reading function (`TS ~> string`) evaluated once in the
constructor, so the pinned version is the `Version` at construction time even
if the tools service's `Version` changes later.

The model also has `Call` (one call on the factory interface), `Answer` (its
result) and `Serve` (the answers to a sequence of calls). The lemmas about
`Serve` say that the answers to a call sequence are the answers to each call
on its own, and that rewriting every call to its async form, with any token,
keeps them. They are list facts on top of `AsAsyncAnswer`; the substance of
the model is the contracts of the accessors and of `ServedIffListed`,
`TokenIgnored` and `AsAsyncAnswer`.

## Model

| member | source | states |
|---|---|---|
| `Tools.SingletonToolsFactory.constructor` | src/Knapcode.NuGetTools.Logic/SingletonToolsFactory.cs:13-18 | the tools service must not be null; the pinned version is the tools service's `Version` as it reads at construction; both services (a null framework-precedence service included) are stored unchanged |
| `Tools.SingletonToolsFactory.GetAvailableVersions` | src/Knapcode.NuGetTools.Logic/SingletonToolsFactory.cs:20-23 | exactly one version is listed, the pinned one; a string is listed iff it equals the pinned version |
| `Tools.SingletonToolsFactory.GetService` | src/Knapcode.NuGetTools.Logic/SingletonToolsFactory.cs:25-33 | the stored tools service is returned iff the request equals the pinned version; `None` iff it differs |
| `Tools.SingletonToolsFactory.GetAvailableVersionsAsync` | src/Knapcode.NuGetTools.Logic/SingletonToolsFactory.cs:35-40 | yields the same list as the synchronous accessor, whatever the token |
| `Tools.SingletonToolsFactory.GetServiceAsync` | src/Knapcode.NuGetTools.Logic/SingletonToolsFactory.cs:42-52 | yields the same result as `GetService` for every version and token |
| `Tools.SingletonToolsFactory.GetFrameworkPrecedenceServiceAsync` | src/Knapcode.NuGetTools.Logic/SingletonToolsFactory.cs:54-64 | a service is returned iff the request equals the pinned version and the stored framework-precedence service is not null, and it is the stored one |
| `Tools.SingletonToolsFactory.ServedIffListed` | src/Knapcode.NuGetTools.Logic/SingletonToolsFactory.cs:20-64 | each accessor serves a service for a version exactly when that version is in the listed versions (for the framework-precedence service, and the stored one is not null) |
| `Tools.SingletonToolsFactory.NullPrecedenceService` | src/Knapcode.NuGetTools.Logic/SingletonToolsFactory.cs:54-64 | with a null stored framework-precedence service, every version, the pinned one included, gets null |
| `Tools.SingletonToolsFactory.TokenIgnored` | src/Knapcode.NuGetTools.Logic/SingletonToolsFactory.cs:35-64 | the async accessors give the same result for any two tokens |
| `Tools.SingletonToolsFactory.AsAsyncAnswer` | src/Knapcode.NuGetTools.Logic/SingletonToolsFactory.cs:20-52 | a synchronous call and its async counterpart get the same answer |
| `Tools.SingletonToolsFactory.Serve` | src/Knapcode.NuGetTools.Logic/SingletonToolsFactory.cs:20-64 | a sequence of calls gets one answer per call |
| `Tools.SingletonToolsFactory.ServeAt` | src/Knapcode.NuGetTools.Logic/SingletonToolsFactory.cs:20-64 | in a sequence of calls, the `i`-th answer is the answer the `i`-th call gets on its own |
| `Tools.SingletonToolsFactory.ServeAppend` | src/Knapcode.NuGetTools.Logic/SingletonToolsFactory.cs:20-64 | the answers to two joined batches of calls are the two batches' own answers side by side |
| `Tools.SingletonToolsFactory.AsyncTraceAgrees` | src/Knapcode.NuGetTools.Logic/SingletonToolsFactory.cs:20-52 | rewriting every call of a sequence to its async form, with any token, gives the same answers |
| `Tools.SingletonToolsFactory.PinnedToOneZeroZero` | src/Knapcode.NuGetTools.Logic/SingletonToolsFactory.cs:20-33 | pinned to "1.0.0": lists ["1.0.0"], serves "1.0.0", refuses "2.0.0" and "1.0.0 " (no trimming) |
| `Tools.SingletonToolsFactory.PinnedCaseSensitive` | src/Knapcode.NuGetTools.Logic/SingletonToolsFactory.cs:25-64 | pinned to "2.0.0-beta": other letter cases are refused, the exact string is served |
| `Tools.SingletonToolsFactory.PinnedToEmpty` | src/Knapcode.NuGetTools.Logic/SingletonToolsFactory.cs:25-64 | pinned to the empty string: the empty string is served like any version, a space is not |

## Left out

- `Task`, `Task.FromResult` and `CancellationToken`: the async accessors finish at once and never read the token, so they are plain functions that take a token they ignore.
- The implementations of `IToolsService` and `IFrameworkPrecedenceService` are not part of this model; they are the type parameters `TS` and `FPS`, and the `Version` getter is the constructor parameter `versionOf`.
- The `NullReferenceException` the constructor throws for a null tools service is a precondition (`toolsService.Some?`) instead. A caller that instantiates `TS` with a nullable type and passes `Some(null)` still gets a factory, where the source would throw; null is meant to be written `None`.
- Null version strings (C#'s `==` on strings accepts them) are not modelled; versions are plain strings.
- `IEnumerable` laziness and the identity of the returned arrays: the version list is a `seq<string>` value.
