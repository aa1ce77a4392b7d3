/** The decision logic of date-reaper's `check` and `check-chunk` commands
    (cmd/check.go): pick the registry record for a release cycle, resolve its
    untyped `support` value, classify it as end-of-life or not against today's
    date, and apply the exit policy.

    The registry's HTTP answer and today's date are parameters: `Response` is
    what the request to the registry produced, and `today` is the
    `YYYY-MM-DD` string the clock would have given. */
module Check {
  import Lex

  datatype Option<T> = None | Some(value: T)

  /** The untyped JSON `support` field: absent or null, a boolean, a string,
      or any other JSON value (number, array, object). */
  datatype Support = SNull | SBool(flag: bool) | SString(text: string) | SOther

  /** One registry record, restricted to the fields the decision reads. */
  datatype SoftwareVersion = SoftwareVersion(cycle: string, support: Support, eol: string)

  /** One entry of a chunk document: the version to check. */
  datatype Variant = Variant(name: string)

  /** The body of a 200 answer: a decoded list of records, or a decoding failure. */
  datatype Body = Malformed(reason: string) | Decoded(versions: seq<SoftwareVersion>)

  /** What the request to the registry produced: the request could not be built
      or sent, or the server answered with a status code and a body. */
  datatype Response = RequestFailed(reason: string) | Responded(status: int, body: Body)

  /** The errors the core returns, by kind. */
  datatype Error =
    | RequestError(reason: string)                   // request construction or transport failure
    | StatusError(status: int)                       // "Error: Server returned status %d"
    | DecodeError(reason: string)                    // JSON decoding failure
    | VersionNotFound                                // "Version not found"
    | EolError                                       // "EOL"
    | NotSupported(displayName: string, version: string)  // "%s %s is not supported anymore"

  datatype Result<T> = Ok(value: T) | Err(error: Error)

  const StatusOK: int := 200

  // ---------------------------------------------------------------------------
  // capitalize

  predicate IsAscii(c: char)
  {
    c as int < 128
  }

  predicate IsLowerAscii(c: char)
  {
    'a' <= c <= 'z'
  }

  /** `strings.ToUpper` applied to a one-character ASCII string. */
  function ToUpperAscii(c: char): (u: char)
    requires IsAscii(c)
    ensures IsAscii(u) && !IsLowerAscii(u)
    ensures IsLowerAscii(c) ==> u as int == c as int - 32 && 'A' <= u <= 'Z'
    ensures !IsLowerAscii(c) ==> u == c
  {
    if IsLowerAscii(c) then (c as int - 32) as char else c
  }

  /** Upper-cases the first character of a word and keeps the rest. */
  function Capitalize(word: string): (r: string)
    requires word == [] || IsAscii(word[0])
    ensures |r| == |word|
    ensures word == [] ==> r == []
    ensures word != [] ==> r[1..] == word[1..] && !IsLowerAscii(r[0])
    ensures word != [] && !IsLowerAscii(word[0]) ==> r == word
    ensures word != [] && IsLowerAscii(word[0]) ==> r[0] as int == word[0] as int - 32
  {
    if |word| == 0 then "" else [ToUpperAscii(word[0])] + word[1..]
  }

  // ---------------------------------------------------------------------------
  // CheckVersion

  /** The index of the first record whose cycle is `version`, if any. */
  function FirstMatch(versions: seq<SoftwareVersion>, version: string): (r: Option<nat>)
    ensures r.Some? ==> r.value < |versions| && versions[r.value].cycle == version
    ensures r.Some? ==> forall j :: 0 <= j < r.value ==> versions[j].cycle != version
    ensures r.None? <==> forall j :: 0 <= j < |versions| ==> versions[j].cycle != version
  {
    if |versions| == 0 then None
    else if versions[0].cycle == version then Some(0)
    else match FirstMatch(versions[1..], version)
      case None => None
      case Some(i) => Some(i + 1)
  }

  /** What `CheckVersion` returns for a registry answer: the failures of the
      request, the status and the decoding come first, in that order; then the
      first record with the requested cycle, or "Version not found". */
  function Lookup(response: Response, version: string): (r: Result<SoftwareVersion>)
    ensures response.RequestFailed? ==> r == Err(RequestError(response.reason))
    ensures response.Responded? && response.status != StatusOK ==> r == Err(StatusError(response.status))
    ensures response.Responded? && response.status == StatusOK && response.body.Malformed? ==>
              r == Err(DecodeError(response.body.reason))
    ensures r.Ok? <==> response.Responded? && response.status == StatusOK && response.body.Decoded?
                       && exists i :: 0 <= i < |response.body.versions| && response.body.versions[i].cycle == version
    ensures r.Ok? ==> r.value.cycle == version
                      && exists i :: 0 <= i < |response.body.versions| && response.body.versions[i] == r.value
                                     && forall j :: 0 <= j < i ==> response.body.versions[j].cycle != version
    ensures r.Err? && response.Responded? && response.status == StatusOK && response.body.Decoded? ==>
              r.error == VersionNotFound
  {
    match response
    case RequestFailed(reason) => Err(RequestError(reason))
    case Responded(status, body) =>
      if status != StatusOK then Err(StatusError(status))
      else match body
        case Malformed(reason) => Err(DecodeError(reason))
        case Decoded(versions) =>
          match FirstMatch(versions, version)
          case Some(i) => Ok(versions[i])
          case None => Err(VersionNotFound)
  }

  /** `CheckVersion` with the HTTP exchange replaced by its outcome: scans the
      decoded records in order and returns at the first matching cycle. */
  method CheckVersion(response: Response, version: string) returns (r: Result<SoftwareVersion>)
    ensures r == Lookup(response, version)
  {
    if response.RequestFailed? {
      return Err(RequestError(response.reason));
    }
    if response.status != StatusOK {
      return Err(StatusError(response.status));
    }
    if response.body.Malformed? {
      return Err(DecodeError(response.body.reason));
    }
    var versions := response.body.versions;
    var i := 0;
    while i < |versions|
      invariant 0 <= i <= |versions|
      invariant forall j :: 0 <= j < i ==> versions[j].cycle != version
    {
      if versions[i].cycle == version {
        return Ok(versions[i]);
      }
      i := i + 1;
    }
    return Err(VersionNotFound);
  }

  // ---------------------------------------------------------------------------
  // Support resolution and EOL classification

  /** The `check` command's type switch on `support`. A string is shown as is,
      `false` as "No Support", anything that is neither a string nor a boolean
      as "Unknown"; `true` leaves the display value at Go's zero value "". */
  function ResolveSupport(s: Support): (r: string)
    ensures s.SString? ==> r == s.text
    ensures r == "No Support" <==> s == SBool(false) || s == SString("No Support")
    ensures r == "Unknown" <==> s == SNull || s == SOther || s == SString("Unknown")
    ensures r == "" <==> s == SBool(true) || s == SString("")
  {
    match s
    case SString(text) => text
    case SBool(flag) => if !flag then "No Support" else ""
    case _ => "Unknown"
  }

  /** The `check` command's test `v.EOL > now`: the version is not EOL yet. */
  predicate NotEolYet(eol: string, today: string)
  {
    Lex.Less(today, eol)
  }

  /** The `check-chunk` command's test `v.EOL <= now`: the version is EOL. */
  predicate EolReached(eol: string, today: string)
  {
    Lex.LessOrEqual(eol, today)
  }

  /** The two commands classify every (eol, today) pair the same way, and a
      version is EOL on its EOL date itself. */
  lemma ClassificationsAgree(eol: string, today: string)
    ensures EolReached(eol, today) <==> !NotEolYet(eol, today)
    ensures EolReached(today, today) && !NotEolYet(today, today)
  {
    Lex.LessOrEqualIsNotGreater(eol, today);
    Lex.Trichotomy(today, today);
  }

  // ---------------------------------------------------------------------------
  // The `check` command

  /** The command-line flags of `check`. */
  datatype Flags = Flags(failOnMissing: bool, failOnUnsupported: bool)

  /** The line `check` prints, with the capitalized software name. */
  datatype Report =
    | NotEolReport(displayName: string, version: string, eol: string, supportEndDate: string)
    | EolReport(displayName: string, version: string, eol: string, supportEndDate: string)

  /** One run of `check`: the line it printed, if any, and the error it returned, if any. */
  datatype Run = Run(report: Option<Report>, error: Option<Error>)

  /** `checkCmd.RunE` for the arguments `name` and `version`. */
  function CheckCommand(response: Response, today: string, name: string, version: string, flags: Flags): (run: Run)
    requires name == [] || IsAscii(name[0])
    ensures run.error.None? ==> run.report.Some? && run.report.value.NotEolReport?
    ensures run.report.Some? ==> Lookup(response, version).Ok?
                                 && run.report.value.displayName == Capitalize(name)
                                 && run.report.value.version == version
                                 && run.report.value.eol == Lookup(response, version).value.eol
                                 && run.report.value.supportEndDate == ResolveSupport(Lookup(response, version).value.support)
  {
    match Lookup(response, version)
    case Err(e) => Run(None, Some(e))
    case Ok(v) =>
      var supportEndDate := ResolveSupport(v.support);
      if NotEolYet(v.eol, today) then
        if flags.failOnUnsupported then Run(None, Some(NotSupported(Capitalize(name), version)))
        else Run(Some(NotEolReport(Capitalize(name), version, v.eol, supportEndDate)), None)
      else
        Run(Some(EolReport(Capitalize(name), version, v.eol, supportEndDate)), Some(EolError))
  }

  // ---------------------------------------------------------------------------
  // The `check-chunk` command

  /** What one iteration of the chunk loop sees from the outside world: the
      registry's answer to its request, and the date its clock read gives. */
  datatype Env = Env(response: Response, today: string)

  /** The line the chunk loop prints for one variant. An EOL line shows the raw
      `support` value, not the resolved one. */
  datatype ChunkLine =
    | CheckFailed(version: string, error: Error)
    | EolLine(version: string, eol: string, support: Support)
    | NotEolLine(version: string, eol: string)

  /** The line printed for variant `version` when the iteration sees `env`. */
  function VariantLine(env: Env, version: string): (line: ChunkLine)
    ensures line.version == version
    ensures line.CheckFailed? <==> Lookup(env.response, version).Err?
    ensures line.CheckFailed? ==> line.error == Lookup(env.response, version).error
    ensures !line.CheckFailed? ==> line.eol == Lookup(env.response, version).value.eol
    ensures line.EolLine? <==> Lookup(env.response, version).Ok?
                               && EolReached(Lookup(env.response, version).value.eol, env.today)
    ensures line.EolLine? ==> line.support == Lookup(env.response, version).value.support
  {
    match Lookup(env.response, version)
    case Err(e) => CheckFailed(version, e)
    case Ok(v) => if EolReached(v.eol, env.today) then EolLine(version, v.eol, v.support) else NotEolLine(version, v.eol)
  }

  /** The loop of `checkChunkCmd.RunE`: one line per variant, in order; a
      failed lookup is reported and the loop goes on to the next variant.
      `envs[i]` is what the `i`-th iteration's request and clock read give. */
  method CheckChunk(variants: seq<Variant>, envs: seq<Env>) returns (lines: seq<ChunkLine>)
    requires |envs| == |variants|
    ensures |lines| == |variants|
    ensures forall i :: 0 <= i < |variants| ==> lines[i] == VariantLine(envs[i], variants[i].name)
  {
    lines := [];
    var i := 0;
    while i < |variants|
      invariant 0 <= i <= |variants|
      invariant |lines| == i
      invariant forall k :: 0 <= k < i ==> lines[k] == VariantLine(envs[k], variants[k].name)
    {
      var version := variants[i].name;
      var r := CheckVersion(envs[i].response, version);
      if r.Err? {
        lines := lines + [CheckFailed(version, r.error)];
        i := i + 1;
        continue;
      }
      var v := r.value;
      var now := envs[i].today;
      if Lex.LessOrEqual(v.eol, now) {
        lines := lines + [EolLine(version, v.eol, v.support)];
      } else {
        lines := lines + [NotEolLine(version, v.eol)];
      }
      i := i + 1;
    }
  }
}
