/** The file relay: which paths it touches, and bytes carried from one machine
    to another as base64. */
module FileRelay {
  import opened Prelude
  import opened Text
  import opened Report
  import opened Authz
  import opened PowerShell
  import opened Registry
  import opened Base64

  // ---------- paths ----------

  const ALLOWED_PREFIXES: seq<string> :=
    ["C:\\Transfer\\",
     "C:\\Windows\\System32\\" + "CertSrv\\CertEnroll\\",
     "C:\\CertEnroll\\"]

  /** A plain absolute path with a conservative character set; the length limit
      is in bytes. */
  predicate ValidWindowsPath(path: string) {
    && |path| >= 3 && path[1] == ':' && path[2] == '\\'
    && IsAsciiAlpha(path[0])
    && ByteLen(path) <= 200
    && forall c :: c in path[3..] ==> IsAsciiAlnum(c) || c in " ._-\\()"
  }

  /** The path is longer than the prefix and begins with it, up to case. */
  predicate Under(path: string, prefix: string) {
    |path| > |prefix| && Lower(path[..|prefix|]) == Lower(prefix)
  }

  predicate RelayPathOk(path: string) {
    && ValidWindowsPath(path)
    && !Contains(path, "..")
    && exists prefix :: prefix in ALLOWED_PREFIXES && Under(path, prefix)
  }

  lemma ValidPathIsAscii(path: string)
    requires ValidWindowsPath(path)
    ensures AllAscii(path)
  {
    forall c | c in path ensures IsAscii(c) {
      var i :| 0 <= i < |path| && path[i] == c;
      if i >= 3 { assert path[3..][i - 3] == c && c in path[3..]; }
    }
  }

  lemma PrefixesAreAscii(prefix: string)
    requires prefix in ALLOWED_PREFIXES
    ensures AllAscii(prefix)
  {
    TransferIsAscii();
    SystemEnrollIsAscii();
    EnrollIsAscii();
  }

  lemma TransferIsAscii()
    ensures AllAscii(ALLOWED_PREFIXES[0])
  {
  }

  lemma SystemEnrollIsAscii()
    ensures AllAscii(ALLOWED_PREFIXES[1])
  {
    var front, back := "C:\\Windows\\System32\\", "CertSrv\\CertEnroll\\";
    FrontIsAscii(front);
    BackIsAscii(back);
    assert ALLOWED_PREFIXES[1] == front + back;
  }

  lemma FrontIsAscii(front: string)
    requires front == "C:\\Windows\\System32\\"
    ensures AllAscii(front)
  {
  }

  lemma BackIsAscii(back: string)
    requires back == "CertSrv\\CertEnroll\\"
    ensures AllAscii(back)
  {
  }

  lemma EnrollIsAscii()
    ensures AllAscii(ALLOWED_PREFIXES[2])
  {
  }

  /** The byte slice the check takes never falls inside a character: whatever
      Unicode text comes in, the character set has been checked first, and then
      bytes and characters coincide. */
  lemma PathSliceIsSafe(path: string, prefix: string)
    requires ValidWindowsPath(path) && prefix in ALLOWED_PREFIXES
    ensures ByteLen(path) > ByteLen(prefix) <==> |path| > |prefix|
    ensures |path| > |prefix| ==>
      && CharBoundary(path, ByteLen(prefix))
      && BytePrefix(path, ByteLen(prefix)) == path[..|prefix|]
  {
    ValidPathIsAscii(path);
    PrefixesAreAscii(prefix);
    AsciiBytes(path);
    AsciiBytes(prefix);
    if |path| > |prefix| {
      AsciiSlice(path, |prefix|);
    }
  }

  /** Without the character check the slice could fall inside a character: here
      the second byte of a two-byte letter. */
  lemma SliceNeedsAscii(letter: char)
    requires 0x80 <= letter as int < 0x800
    ensures !CharBoundary([letter], 1)
  {
    var s := [letter];
    forall k | 0 <= k <= 1 ensures ByteLen(s[..k]) != 1 {
      if k == 1 { assert s[..1] == s && s[1..] == []; }
    }
  }

  /** Lexical normalisation with a stack: empty components and "." vanish, ".."
      drops the component before it, but not the drive. */
  function Normalise(parts: seq<string>): seq<string> {
    if parts == [] then []
    else
      var stack := Normalise(parts[..|parts| - 1]);
      var part := parts[|parts| - 1];
      if part == "" || part == "." then stack
      else if part == ".." then (if |stack| > 1 then stack[..|stack| - 1] else stack)
      else stack + [part]
  }

  function Components(path: string): seq<string> { Normalise(Split(Lower(path), "\\")) }

  lemma {:induction false} NormaliseGrows(a: seq<string>, b: seq<string>)
    requires ".." !in b
    ensures Normalise(a) <= Normalise(a + b)
  {
    if b == [] {
      assert a + b == a;
    } else {
      assert (a + b)[..|a + b| - 1] == a + b[..|b| - 1];
      NormaliseGrows(a, b[..|b| - 1]);
    }
  }

  lemma {:induction false} PieceIsContained(s: string, sep: string, piece: string)
    requires sep != [] && piece in Split(s, sep)
    ensures Contains(s, piece)
    ensures piece == Split(s, sep)[0] ==> piece <= s
    decreases |s|
  {
    if |s| < |sep| {
      assert s[0..] == s;
    } else if sep <= s {
      assert s[0..] == s;
      if piece != [] {
        PieceIsContained(s[|sep|..], sep, piece);
        ContainsLater(s, |sep|, piece);
      }
    } else {
      var rest := Split(s[1..], sep);
      var all := Split(s, sep);
      assert s == [s[0]] + s[1..] && s[0..] == s;
      if piece == all[0] {
        PieceIsContained(s[1..], sep, rest[0]);
        assert rest[0] <= s[1..];
      } else {
        assert piece in rest;
        PieceIsContained(s[1..], sep, piece);
        ContainsLater(s, 1, piece);
      }
    }
  }

  lemma ContainsLater(s: string, k: nat, pat: string)
    requires k <= |s| && Contains(s[k..], pat)
    ensures Contains(s, pat)
  {
    var i :| 0 <= i <= |s[k..]| - |pat| && pat <= s[k..][i..];
    assert s[k..][i..] == s[k + i..];
  }

  lemma LowerKeepsDots(s: string)
    ensures Contains(Lower(s), "..") ==> Contains(s, "..")
  {
    if Contains(Lower(s), "..") {
      var i :| 0 <= i <= |s| - 2 && ".." <= Lower(s)[i..];
      assert Lower(s)[i..][0] == Lower(s)[i] && Lower(s)[i..][1] == Lower(s)[i + 1];
      assert ".." <= s[i..];
    }
  }

  lemma PrefixEnds(prefix: string)
    requires prefix in ALLOWED_PREFIXES
    ensures prefix != [] && prefix[|prefix| - 1] == '\\'
  {
    assert prefix == ALLOWED_PREFIXES[0] || prefix == ALLOWED_PREFIXES[1] || prefix == ALLOWED_PREFIXES[2];
  }

  lemma NoDotsAfter(path: string, k: nat)
    requires k <= |path| && !Contains(path, "..")
    ensures ".." !in Split(Lower(path)[k..], "\\")
  {
    if ".." in Split(Lower(path)[k..], "\\") {
      PieceIsContained(Lower(path)[k..], "\\", "..");
      ContainsLater(Lower(path), k, "..");
      LowerKeepsDots(path);
    }
  }

  /** What follows a directory adds components to it, unless a ".." is among them. */
  lemma BelowDirectory(base: string, rest: string)
    requires ".." !in Split(rest, "\\")
    ensures Normalise(Split(base + "\\", "\\")) <= Normalise(Split(base + "\\" + rest, "\\"))
  {
    var parts := Split(base, "\\");
    SplitAppend(base, "\\", []);
    SplitAppend(base, "\\", rest);
    assert base + "\\" + [] == base + "\\";
    assert (parts + [[]])[..|parts|] == parts;
    NormaliseGrows(parts, Split(rest, "\\"));
  }

  lemma UnderExtends(path: string, prefix: string)
    requires Under(path, prefix) && prefix != [] && prefix[|prefix| - 1] == '\\'
    ensures var base := Lower(prefix)[..|prefix| - 1];
            && Lower(prefix) == base + "\\"
            && Lower(path) == base + "\\" + Lower(path)[|prefix|..]
  {
    LowerConcat(path[..|prefix|], path[|prefix|..]);
    assert path == path[..|prefix|] + path[|prefix|..];
  }

  /** Every accepted path, of any length and depth, stays lexically inside one of
      the three directories. */
  lemma AcceptedPathsStayInside(path: string)
    requires RelayPathOk(path)
    ensures exists prefix :: prefix in ALLOWED_PREFIXES && Components(prefix) <= Components(path)
  {
    var prefix :| prefix in ALLOWED_PREFIXES && Under(path, prefix);
    PrefixEnds(prefix);
    StaysUnder(path, prefix);
  }

  lemma StaysUnder(path: string, prefix: string)
    requires Under(path, prefix) && !Contains(path, "..")
    requires prefix != [] && prefix[|prefix| - 1] == '\\'
    ensures Components(prefix) <= Components(path)
  {
    UnderExtends(path, prefix);
    NoDotsAfter(path, |prefix|);
    BelowDirectory(Lower(prefix)[..|prefix| - 1], Lower(path)[|prefix|..]);
  }

  /** What the check comes to: it begins with one of the directories in any letter
      case and goes on, is plain, short, and has no "..". */
  lemma RelayPathExactly(path: string)
    ensures RelayPathOk(path) <==>
      && (Below(path, "C:\\Transfer\\") || Below(path, "C:\\CertEnroll\\")
          || Below(path, "C:\\Windows\\System32\\CertSrv\\CertEnroll\\"))
      && |path| <= 200 && (forall c :: c in path[3..] ==> IsAsciiAlnum(c) || c in " ._-\\()")
      && !Contains(path, "..")
  {
    UnderOneOfThree(path);
    UnderExactly(path, "C:\\Transfer\\");
    UnderExactly(path, "C:\\CertEnroll\\");
    UnderExactly(path, "C:\\Windows\\System32\\CertSrv\\CertEnroll\\");
    if exists prefix :: prefix in ALLOWED_PREFIXES && Under(path, prefix) {
      var prefix :| prefix in ALLOWED_PREFIXES && Under(path, prefix);
      DriveOfPrefix(path, prefix);
      if forall c :: c in path[3..] ==> IsAsciiAlnum(c) || c in " ._-\\()" {
        PlainIsAscii(path);
      }
    }
    if ValidWindowsPath(path) {
      ValidPathIsAscii(path);
      AsciiBytes(path);
    }
  }

  /** The directory in some letter case, and something after it. */
  ghost predicate Below(path: string, prefix: string) {
    && |path| > |prefix|
    && forall i :: 0 <= i < |prefix| ==> SameUpToCase(path[i], prefix[i])
  }

  lemma UnderExactly(path: string, prefix: string)
    ensures Under(path, prefix) <==> Below(path, prefix)
  {
    if |path| > |prefix| { LowerExactly(path[..|prefix|], prefix); }
  }

  lemma UnderOneOfThree(path: string)
    ensures (exists prefix :: prefix in ALLOWED_PREFIXES && Under(path, prefix)) <==>
      || Under(path, "C:\\Transfer\\") || Under(path, "C:\\CertEnroll\\")
      || Under(path, "C:\\Windows\\System32\\CertSrv\\CertEnroll\\")
  {
    assert ALLOWED_PREFIXES[0] == "C:\\Transfer\\" && ALLOWED_PREFIXES[2] == "C:\\CertEnroll\\";
    assert ALLOWED_PREFIXES[1] == "C:\\Windows\\System32\\CertSrv\\CertEnroll\\";
    assert ALLOWED_PREFIXES[0] in ALLOWED_PREFIXES && ALLOWED_PREFIXES[1] in ALLOWED_PREFIXES
        && ALLOWED_PREFIXES[2] in ALLOWED_PREFIXES;
  }

  lemma DriveOfPrefix(path: string, prefix: string)
    requires prefix in ALLOWED_PREFIXES && Under(path, prefix)
    ensures |path| > 3 && path[1] == ':' && path[2] == '\\' && IsAsciiAlpha(path[0])
  {
    PrefixStarts(prefix);
    assert Lower(path[..|prefix|])[0] == Lower(prefix)[0] && Lower(path[..|prefix|])[1] == Lower(prefix)[1]
        && Lower(path[..|prefix|])[2] == Lower(prefix)[2];
  }

  lemma PrefixStarts(prefix: string)
    requires prefix in ALLOWED_PREFIXES
    ensures |prefix| > 3 && prefix[0] == 'C' && prefix[1] == ':' && prefix[2] == '\\'
  {
    assert prefix == ALLOWED_PREFIXES[0] || prefix == ALLOWED_PREFIXES[1] || prefix == ALLOWED_PREFIXES[2];
  }

  lemma PlainIsAscii(path: string)
    requires |path| >= 3 && path[1] == ':' && path[2] == '\\' && IsAsciiAlpha(path[0])
    requires forall c :: c in path[3..] ==> IsAsciiAlnum(c) || c in " ._-\\()"
    ensures ByteLen(path) == |path|
  {
    forall c | c in path ensures IsAscii(c) {
      var i :| 0 <= i < |path| && path[i] == c;
      if i >= 3 { assert path[3..][i - 3] == c && c in path[3..]; }
    }
    AsciiBytes(path);
  }

  // ---------- handlers ----------

  const RELAY_CAP_BYTES := 256 * 1024
  const RELAY_CAP_B64 := RELAY_CAP_BYTES / 3 * 4 + 4

  const INVALID_RELAY_PATH := InvalidParam("path",
    "must be an absolute path under C:\\Transfer\\, the CertSrv CertEnroll dir, or C:\\CertEnroll\\")

  function PrepareRead(params: Params): Result<Job, CommandError> {
    match Param(params, "path")
    case None => Err(MissingParam("path"))
    case Some(path) =>
      if !RelayPathOk(path) then Err(INVALID_RELAY_PATH)
      else Ok(Job("reading file", 30.0, [path, Decimal(RELAY_CAP_BYTES)]))
  }

  function Field(v: Value, name: string): Value {
    if v.Obj? && name in v.fields then v.fields[name] else Null
  }

  function FinishRead(params: Params, output: Output): Result<Value, CommandError> {
    if !Field(output.parsed, "contentB64").Str? then Err(InvalidParam("path", "file could not be read"))
    else Ok(Obj(map["path" := Str(ParamOr(params, "path", "")),
                    "contentB64" := Field(output.parsed, "contentB64"),
                    "sha256" := Field(output.parsed, "sha256"),
                    "size" := Field(output.parsed, "size")]))
  }

  function FileRead(): Handler { Staged("file.read", VmProvision, PrepareRead, FinishRead) }

  predicate WriteAccepts(content: string) {
    && ByteLen(content) <= RELAY_CAP_B64
    && content != []
    && forall c :: c in content ==> InAlphabet(c)
  }

  function PrepareWrite(params: Params): Result<Job, CommandError> {
    match Param(params, "path")
    case None => Err(MissingParam("path"))
    case Some(path) =>
      if !RelayPathOk(path) then Err(INVALID_RELAY_PATH)
      else
        match Param(params, "contentB64")
        case None => Err(MissingParam("contentB64"))
        case Some(content) =>
          if ByteLen(content) > RELAY_CAP_B64 then Err(InvalidParam("contentB64", "exceeds the 256 KiB relay cap"))
          else if content == [] || exists c :: c in content && !InAlphabet(c) then
            Err(InvalidParam("contentB64", "must be base64"))
          else Ok(Job("writing file", 30.0, [path, content]))
  }

  function FinishWrite(params: Params, output: Output): Result<Value, CommandError> {
    Ok(Obj(map["path" := Str(ParamOr(params, "path", "")), "sha256" := Str(Trim(output.stdout))]))
  }

  function FileWrite(): Handler { Staged("file.write", VmProvision, PrepareWrite, FinishWrite) }

  // ---------- scripts ----------

  /** What the read script returns for a file; it throws above the cap. */
  function ReadScript(bytes: seq<Byte>): Option<string> {
    if |bytes| > RELAY_CAP_BYTES then None else Some(Encode(bytes))
  }

  /** What the write script stores; it throws on text that does not decode. */
  function WriteScript(content: string): Option<seq<Byte>> { Decode(content) }

  // ---------- main results ----------

  lemma AlphabetBytes(text: string)
    requires forall c :: c in text ==> InAlphabet(c)
    ensures ByteLen(text) == |text|
  {
    forall c | c in text ensures IsAscii(c) {
      assert InAlphabet(c);
    }
    AsciiBytes(text);
  }

  lemma AcceptsByLength(text: string)
    requires forall c :: c in text ==> InAlphabet(c)
    ensures WriteAccepts(text) <==> 1 <= |text| <= RELAY_CAP_B64
  {
    AlphabetBytes(text);
  }

  lemma EncodedLimit(n: nat)
    ensures 1 <= (n + 2) / 3 * 4 <= RELAY_CAP_B64 <==> 1 <= n <= RELAY_CAP_BYTES + 2
  {
  }

  /** Encoded content passes the write checks exactly when it stands for one
      byte up to two bytes over the cap: the encoded limit is the rounded-up
      encoding of the cap, no more. An empty file encodes to nothing and is refused. */
  lemma WriteAcceptsExactly(bytes: seq<Byte>)
    ensures WriteAccepts(Encode(bytes)) <==> 1 <= |bytes| <= RELAY_CAP_BYTES + 2
    ensures RELAY_CAP_B64 == (RELAY_CAP_BYTES + 2) / 3 * 4
  {
    AcceptsByLength(Encode(bytes));
    EncodedLimit(|bytes|);
    CapIsRoundedUp();
  }

  lemma CapIsRoundedUp()
    ensures RELAY_CAP_B64 == (RELAY_CAP_BYTES + 2) / 3 * 4
  {
  }

  /** Whatever content gets through and decodes is at most two bytes over the cap. */
  lemma AcceptedContentIsBounded(content: string)
    requires WriteAccepts(content) && WriteScript(content).Some?
    ensures 1 <= |WriteScript(content).value| <= RELAY_CAP_BYTES + 2
  {
    AlphabetBytes(content);
    var quads := DecodedLength(content);
  }

  lemma ReadReturns(params: Params, path: string, output: Output)
    requires RelayPathOk(path) && params == map["path" := path] && output.Succeeded()
    ensures FileRead().run(params, Ok(output)).outcome == FinishRead(params, output)
  {
    assert PrepareRead(params).Ok?;
  }

  lemma WriteRuns(params: Params, path: string, content: string, output: Output)
    requires RelayPathOk(path) && params == map["path" := path, "contentB64" := content]
    ensures FileWrite().run(params, Ok(output)).calls ==
      if WriteAccepts(content) then [Call("file.write", [path, content])] else []
  {
    assert params["path"] == path && params["contentB64"] == content;
    assert PrepareWrite(params).Ok? <==> WriteAccepts(content);
  }

  /** file.read end to end. */
  lemma ReadRun(params: Params, reply: Reply)
    ensures var ex := FileRead().run(params, reply);
            && (PrepareRead(params).Ok? <==> "path" in params && RelayPathOk(params["path"]))
            && (PrepareRead(params).Ok? ==>
                  && ex.calls == [Call("file.read", [params["path"], Decimal(262144)])]
                  && (ex.outcome.Ok? <==>
                        reply.Ok? && reply.value.exitCode == 0 && Field(reply.value.parsed, "contentB64").Str?)
                  && (ex.outcome.Ok? ==>
                        && Field(ex.outcome.value, "path") == Str(params["path"])
                        && Field(ex.outcome.value, "contentB64") == Field(reply.value.parsed, "contentB64")
                        && Field(ex.outcome.value, "sha256") == Field(reply.value.parsed, "sha256")
                        && Field(ex.outcome.value, "size") == Field(reply.value.parsed, "size")))
  {
    StagedCases("file.read", VmProvision, PrepareRead, FinishRead, params, reply);
    if "path" in params && reply.Ok? && reply.value.exitCode == 0 { ReadFields(params, reply.value); }
  }

  lemma ReadFields(params: Params, output: Output)
    requires "path" in params
    ensures var outcome := FinishRead(params, output);
            && (outcome.Ok? <==> Field(output.parsed, "contentB64").Str?)
            && (outcome.Ok? ==>
                  && Field(outcome.value, "path") == Str(params["path"])
                  && Field(outcome.value, "contentB64") == Field(output.parsed, "contentB64")
                  && Field(outcome.value, "sha256") == Field(output.parsed, "sha256")
                  && Field(outcome.value, "size") == Field(output.parsed, "size"))
  {
    FourFields("path", Str(params["path"]), "contentB64", Field(output.parsed, "contentB64"),
               "sha256", Field(output.parsed, "sha256"), "size", Field(output.parsed, "size"));
  }

  lemma FourFields(k: string, u: Value, l: string, v: Value, m: string, x: Value, n: string, y: Value)
    requires k == "path" && l == "contentB64" && m == "sha256" && n == "size"
    ensures var o := Obj(map[k := u, l := v, m := x, n := y]);
            Field(o, k) == u && Field(o, l) == v && Field(o, m) == x && Field(o, n) == y
  {
    assert |k| == 4 && |l| == 10 && |m| == 6 && |n| == 4 && k[0] != n[0];
  }

  /** file.write end to end. */
  lemma WriteRun(params: Params, reply: Reply)
    ensures var ex := FileWrite().run(params, reply);
            && (PrepareWrite(params).Ok? <==>
                  && "path" in params && RelayPathOk(params["path"])
                  && "contentB64" in params && WriteAccepts(params["contentB64"]))
            && (PrepareWrite(params).Ok? ==>
                  && ex.calls == [Call("file.write", [params["path"], params["contentB64"]])]
                  && (ex.outcome.Ok? <==> reply.Ok? && reply.value.exitCode == 0)
                  && (ex.outcome.Ok? ==>
                        && Field(ex.outcome.value, "path") == Str(params["path"])
                        && Field(ex.outcome.value, "sha256") == Str(Trim(reply.value.stdout))))
  {
    StagedCases("file.write", VmProvision, PrepareWrite, FinishWrite, params, reply);
    PreparedWrite(params);
    if "path" in params && reply.Ok? { WriteFields(params, reply.value); }
  }

  lemma PreparedWrite(params: Params)
    ensures PrepareWrite(params).Ok? <==>
      && "path" in params && RelayPathOk(params["path"])
      && "contentB64" in params && WriteAccepts(params["contentB64"])
    ensures PrepareWrite(params).Ok? ==> PrepareWrite(params).value.args == [params["path"], params["contentB64"]]
  {
  }

  lemma WriteFields(params: Params, output: Output)
    requires "path" in params
    ensures var outcome := FinishWrite(params, output);
            && outcome.Ok? && Field(outcome.value, "path") == Str(params["path"])
            && Field(outcome.value, "sha256") == Str(Trim(output.stdout))
  {
    PathAndHash("path", Str(params["path"]), "sha256", Str(Trim(output.stdout)));
  }

  lemma PathAndHash(k: string, u: Value, l: string, v: Value)
    requires k == "path" && l == "sha256"
    ensures var o := Obj(map[k := u, l := v]); Field(o, k) == u && Field(o, l) == v
  {
    assert |k| == 4 && |l| == 6;
  }

  /** The text a successful read reports, for the backend to hand on. */
  function RelayedText(outcome: Result<Value, CommandError>): Option<string> {
    if outcome.Ok? && Field(outcome.value, "contentB64").Str?
    then Some(Field(outcome.value, "contentB64").text) else None
  }

  /** The bytes a write run would store, if it reaches its script. */
  function StoredBytes(ex: Execution<CommandError>): Option<seq<Byte>> {
    if |ex.calls| == 1 && |ex.calls[0].args| == 2 then WriteScript(ex.calls[0].args[1]) else None
  }

  /** The result of reading, handed to a write on any other path: the very bytes
      arrive exactly for files of one byte up to the cap. */
  lemma RelayRoundTrip(from: string, to: string, bytes: seq<Byte>, output: Output)
    requires RelayPathOk(from) && RelayPathOk(to) && output.Succeeded()
    requires ReadScript(bytes).Some? ==> Field(output.parsed, "contentB64") == Str(ReadScript(bytes).value)
    ensures var text := RelayedText(FileRead().run(map["path" := from], Ok(output)).outcome);
            1 <= |bytes| <= RELAY_CAP_BYTES <==>
              && ReadScript(bytes).Some? && text.Some?
              && StoredBytes(FileWrite().run(map["path" := to, "contentB64" := text.value], Ok(output))) == Some(bytes)
  {
    if |bytes| <= RELAY_CAP_BYTES {
      ReadRelays(from, Encode(bytes), output);
      StoresExactly(to, bytes, output);
    }
  }

  lemma ReadRelays(path: string, content: string, output: Output)
    requires RelayPathOk(path) && output.Succeeded() && Field(output.parsed, "contentB64") == Str(content)
    ensures RelayedText(FileRead().run(map["path" := path], Ok(output)).outcome) == Some(content)
  {
    ReadReturns(map["path" := path], path, output);
  }

  lemma StoresExactly(to: string, bytes: seq<Byte>, output: Output)
    requires RelayPathOk(to)
    ensures StoredBytes(FileWrite().run(map["path" := to, "contentB64" := Encode(bytes)], Ok(output)))
         == if 1 <= |bytes| <= RELAY_CAP_BYTES + 2 then Some(bytes) else None
  {
    WriteRuns(map["path" := to, "contentB64" := Encode(bytes)], to, Encode(bytes), output);
    DecodeEncode(bytes);
    WriteAcceptsExactly(bytes);
  }
}
