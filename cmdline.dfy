/** Classification of the kernel command line into a boot mode and a
    recovery-system label (whichModeAndRecoverSystem). */
module Cmdline {
  import opened Common
  import opened Scanner

  const ModePrefix := "snapd_recovery_mode="
  const SystemPrefix := "snapd_recovery_system="

  /** The modes the initramfs knows how to handle. */
  const ValidModes: seq<string> := ["install", "recover", "run"]

  /** What a successful classification yields; the label is "" in run mode. */
  datatype Parsed = Parsed(mode: string, sysLabel: string)

  /** Position of the first '=' in t. */
  function FirstEq(t: string): (i: nat)
    requires '=' in t
    ensures i < |t| && t[i] == '='
    ensures forall j :: 0 <= j < i ==> t[j] != '='
  {
    if t[0] == '=' then 0
    else
      assert '=' in t[1..] by {
        var k :| 0 <= k < |t| && t[k] == '=';
        assert t[1..][k - 1] == '=';
      }
      1 + FirstEq(t[1..])
  }

  /** The second half of splitting t at its first '=' (strings.SplitN(t, "=", 2)[1]). */
  function AfterFirstEq(t: string): (v: string)
    requires '=' in t
    ensures |v| < |t| && v == t[|t| - |v|..]
    ensures t[|t| - |v| - 1] == '='
    ensures forall j :: 0 <= j < |t| - |v| - 1 ==> t[j] != '='
  {
    t[FirstEq(t) + 1..]
  }

  /** The mode a snapd_recovery_mode= token selects: its value, "install" when empty. */
  function ModeValue(t: string): string
    requires HasPrefix(t, ModePrefix)
  {
    TokenValue(t, ModePrefix);
    var m := AfterFirstEq(t);
    if m == "" then "install" else m
  }

  /** The value of a snapd_recovery_system= token. */
  function SystemValue(t: string): string
    requires HasPrefix(t, SystemPrefix)
  {
    TokenValue(t, SystemPrefix);
    AfterFirstEq(t)
  }

  /** What one token does to the scan: it decides the result, or the scan
      goes on with the mode and label seen so far. */
  datatype Scanned = Decided(result: Result<Parsed>) | Undecided(mode: string, sysLabel: string)

  /** The body of the scanning loop for token t (lines 237-254). */
  function ScanToken(t: string, mode: string, sysLabel: string): Scanned {
    var isMode := HasPrefix(t, ModePrefix);
    if isMode && ModeValue(t) !in ValidModes then Decided(Err(UnknownMode(ModeValue(t))))
    else if isMode && ModeValue(t) == "run" then Decided(Ok(Parsed("run", "")))
    else
      var mode' := if isMode then ModeValue(t) else mode;
      var sysLabel' := if HasPrefix(t, SystemPrefix) then SystemValue(t) else sysLabel;
      if mode' != "" && sysLabel' != "" then Decided(Ok(Parsed(mode', sysLabel')))
      else Undecided(mode', sysLabel')
  }

  /** The scan of the remaining tokens ts, with mode and label seen so far:
      the specification the scanning loop is proved against. */
  function Classify(ts: seq<string>, mode: string, sysLabel: string): Result<Parsed>
    decreases |ts|
  {
    if ts == [] then Err(CannotDetectMode)
    else match ScanToken(ts[0], mode, sysLabel)
      case Decided(r) => r
      case Undecided(mode', sysLabel') => Classify(ts[1..], mode', sysLabel')
  }

  /** The mode seen so far is empty, install or recover. */
  predicate PendingMode(mode: string) {
    mode == "" || mode == "install" || mode == "recover"
  }

  /** One token decides with a valid mode, the label being empty exactly in
      run mode, or leaves a pending mode. */
  lemma ScanTokenShape(t: string, mode: string, sysLabel: string)
    requires PendingMode(mode)
    ensures var s := ScanToken(t, mode, sysLabel);
      if s.Decided? then
        (s.result.Ok? ==> s.result.value.mode in ValidModes && (s.result.value.mode == "run" <==> s.result.value.sysLabel == "")) &&
        (s.result.Err? ==> s.result.error.UnknownMode?)
      else PendingMode(s.mode)
  {
    assert ValidModes == ["install", "recover", "run"];
    if HasPrefix(t, ModePrefix) {
      var v := ModeValue(t);
      assert v in ValidModes ==> v == "install" || v == "recover" || v == "run";
    }
  }

  /** whichModeAndRecoverSystem: scans the words of the command line, keeping
      the mode and label seen so far, and returns as soon as it can decide. */
  method WhichModeAndRecoverSystem(cmdline: string) returns (r: Result<Parsed>)
    ensures r == Classify(Words(cmdline), "", "")
    ensures r.Ok? ==> r.value.mode in ValidModes
    ensures r.Ok? ==> (r.value.mode == "run" <==> r.value.sysLabel == "")
  {
    var tokens := Words(cmdline);
    var mode, sysLabel := "", "";
    var i := 0;
    while i < |tokens|
      invariant 0 <= i <= |tokens|
      invariant Classify(tokens, "", "") == Classify(tokens[i..], mode, sysLabel)
      invariant PendingMode(mode)
    {
      var t := tokens[i];
      ghost var scanned := ScanToken(t, mode, sysLabel);
      ScanTokenShape(t, mode, sysLabel);
      ClassifyAt(tokens, i, mode, sysLabel);
      if HasPrefix(t, ModePrefix) {
        TokenValue(t, ModePrefix);
        mode := AfterFirstEq(t);
        if mode == "" {
          mode := "install";
        }
        if mode !in ValidModes {
          return Err(UnknownMode(mode));
        }
        if mode == "run" {
          return Ok(Parsed("run", ""));
        }
      }
      if HasPrefix(t, SystemPrefix) {
        TokenValue(t, SystemPrefix);
        sysLabel := AfterFirstEq(t);
      }
      if mode != "" && sysLabel != "" {
        return Ok(Parsed(mode, sysLabel));
      }
      assert scanned == Undecided(mode, sysLabel);
      i := i + 1;
    }
    assert tokens[i..] == [];
    return Err(CannotDetectMode);
  }

  /** Classify on the tokens from position i on is one ScanToken step. */
  lemma ClassifyAt(ts: seq<string>, i: nat, mode: string, sysLabel: string)
    requires i < |ts|
    ensures var s := ScanToken(ts[i], mode, sysLabel);
      Classify(ts[i..], mode, sysLabel) == if s.Decided? then s.result else Classify(ts[i + 1..], s.mode, s.sysLabel)
  {
    assert ts[i..][0] == ts[i] && ts[i..][1..] == ts[i + 1..];
  }

  /** On success the mode is valid, and the label is empty exactly in run
      mode; the only failures are an unknown mode and running out of input. */
  lemma {:induction false} ClassifyShape(ts: seq<string>, mode: string, sysLabel: string)
    requires PendingMode(mode)
    ensures var r := Classify(ts, mode, sysLabel);
      r.Ok? ==> r.value.mode in ValidModes && (r.value.mode == "run" <==> r.value.sysLabel == "")
    ensures var r := Classify(ts, mode, sysLabel);
      r.Err? ==> r.error.UnknownMode? || r.error == CannotDetectMode
    decreases |ts|
  {
    if ts != [] {
      ScanTokenShape(ts[0], mode, sysLabel);
      match ScanToken(ts[0], mode, sysLabel)
      case Decided(_) =>
      case Undecided(mode', sysLabel') => ClassifyShape(ts[1..], mode', sysLabel');
    }
  }

  /** Both prefixes end in their only '='. */
  lemma PrefixesEndInEq()
    ensures ModePrefix[|ModePrefix| - 1] == '=' && forall j :: 0 <= j < |ModePrefix| - 1 ==> ModePrefix[j] != '='
    ensures SystemPrefix[|SystemPrefix| - 1] == '=' && forall j :: 0 <= j < |SystemPrefix| - 1 ==> SystemPrefix[j] != '='
  {
  }

  /** In a token that starts with a prefix whose only '=' is its last
      character, the value after the first '=' is the rest of the token. */
  lemma ValueAfterPrefix(t: string, p: string)
    requires HasPrefix(t, p) && p != [] && p[|p| - 1] == '='
    requires forall j :: 0 <= j < |p| - 1 ==> p[j] != '='
    ensures '=' in t && AfterFirstEq(t) == t[|p|..]
  {
    assert forall j :: 0 <= j < |p| ==> t[j] == p[j];
    var v := AfterFirstEq(t);
    assert |t| - |v| - 1 == |p| - 1;
  }

  /** The value of a token with either prefix is the token text after the prefix. */
  lemma TokenValue(t: string, p: string)
    requires p == ModePrefix || p == SystemPrefix
    requires HasPrefix(t, p)
    ensures '=' in t && AfterFirstEq(t) == t[|p|..]
  {
    PrefixesEndInEq();
    ValueAfterPrefix(t, p);
  }

  /** Each returned value is the token text after the prefix. */
  lemma ModeAndSystemValues(t: string)
    ensures HasPrefix(t, ModePrefix) ==>
      ModeValue(t) == if t[|ModePrefix|..] == "" then "install" else t[|ModePrefix|..]
    ensures HasPrefix(t, SystemPrefix) ==> SystemValue(t) == t[|SystemPrefix|..]
  {
    if HasPrefix(t, ModePrefix) {
      TokenValue(t, ModePrefix);
    }
    if HasPrefix(t, SystemPrefix) {
      TokenValue(t, SystemPrefix);
    }
  }

  /** What a snapd_recovery_mode= token does, for every value v: an unknown
      mode fails, run decides at once, and install or recover (an empty value
      meaning install) decides when a label was already seen and otherwise
      replaces the mode seen so far. */
  lemma ScanModeToken(v: string, mode: string, sysLabel: string)
    ensures var m := if v == "" then "install" else v;
      ScanToken(ModePrefix + v, mode, sysLabel) ==
        if m !in ValidModes then Decided(Err(UnknownMode(m)))
        else if m == "run" then Decided(Ok(Parsed("run", "")))
        else if sysLabel != "" then Decided(Ok(Parsed(m, sysLabel)))
        else Undecided(m, sysLabel)
  {
    var t := ModePrefix + v;
    assert HasPrefix(t, ModePrefix) && t[|ModePrefix|..] == v;
    ModeAndSystemValues(t);
    assert !HasPrefix(t, SystemPrefix) by { assert t[15] != SystemPrefix[15]; }
  }

  /** What a snapd_recovery_system= token does: it replaces the label seen
      so far, and decides once a mode was seen and the label is not empty. */
  lemma ScanSystemToken(l: string, mode: string, sysLabel: string)
    ensures ScanToken(SystemPrefix + l, mode, sysLabel) ==
      if mode != "" && l != "" then Decided(Ok(Parsed(mode, l))) else Undecided(mode, l)
  {
    var t := SystemPrefix + l;
    assert HasPrefix(t, SystemPrefix) && t[|SystemPrefix|..] == l;
    ModeAndSystemValues(t);
    assert !HasPrefix(t, ModePrefix) by { assert t[15] != ModePrefix[15]; }
  }

  /** Any other token changes nothing. */
  lemma ScanOtherToken(t: string, mode: string, sysLabel: string)
    requires !HasPrefix(t, ModePrefix) && !HasPrefix(t, SystemPrefix)
    ensures ScanToken(t, mode, sysLabel) ==
      if mode != "" && sysLabel != "" then Decided(Ok(Parsed(mode, sysLabel))) else Undecided(mode, sysLabel)
  {
  }

  /** Classify on a token followed by more tokens is one ScanToken step. */
  lemma ClassifyCons(t: string, rest: seq<string>, mode: string, sysLabel: string)
    ensures var s := ScanToken(t, mode, sysLabel);
      Classify([t] + rest, mode, sysLabel) == if s.Decided? then s.result else Classify(rest, s.mode, s.sysLabel)
  {
    var ts := [t] + rest;
    assert ts[0] == t && ts[1..] == rest;
  }

  /** A mode outside ValidModes fails at once, whatever was seen before and
      whatever follows. */
  lemma UnknownModeFailsAtOnce(v: string, rest: seq<string>, mode: string, sysLabel: string)
    requires v != "" && v !in ValidModes
    ensures Classify([ModePrefix + v] + rest, mode, sysLabel) == Err(UnknownMode(v))
  {
    ScanModeToken(v, mode, sysLabel);
    ClassifyCons(ModePrefix + v, rest, mode, sysLabel);
  }

  /** run short-circuits: no label is needed and later tokens are ignored. */
  lemma RunShortCircuits(rest: seq<string>, mode: string, sysLabel: string)
    ensures Classify([ModePrefix + "run"] + rest, mode, sysLabel) == Ok(Parsed("run", ""))
  {
    ScanModeToken("run", mode, sysLabel);
    ClassifyCons(ModePrefix + "run", rest, mode, sysLabel);
  }

  /** A token that is neither a mode token nor a system token. */
  predicate Neutral(t: string) {
    !HasPrefix(t, ModePrefix) && !HasPrefix(t, SystemPrefix)
  }

  /** While the mode or the label is still missing, other tokens are
      skipped: they leave the classification of what follows unchanged. */
  lemma {:induction false} SkipNeutral(pre: seq<string>, rest: seq<string>, mode: string, sysLabel: string)
    requires forall t <- pre :: Neutral(t)
    requires mode == "" || sysLabel == ""
    ensures Classify(pre + rest, mode, sysLabel) == Classify(rest, mode, sysLabel)
    decreases |pre|
  {
    if pre == [] {
      assert pre + rest == rest;
    } else {
      assert pre[0] in pre;
      ScanOtherToken(pre[0], mode, sysLabel);
      assert pre + rest == [pre[0]] + (pre[1..] + rest);
      ClassifyCons(pre[0], pre[1..] + rest, mode, sysLabel);
      assert forall t <- pre[1..] :: t in pre;
      SkipNeutral(pre[1..], rest, mode, sysLabel);
    }
  }

  /** install and recover need both tokens: a mode token, then a label
      token, with any other tokens before, between and after them. */
  lemma ModeThenLabel(pre: seq<string>, m: string, mid: seq<string>, l: string, rest: seq<string>)
    requires m == "install" || m == "recover"
    requires l != ""
    requires forall t <- pre :: Neutral(t)
    requires forall t <- mid :: Neutral(t)
    ensures Classify(pre + [ModePrefix + m] + mid + [SystemPrefix + l] + rest, "", "") == Ok(Parsed(m, l))
  {
    var tm, tl := ModePrefix + m, SystemPrefix + l;
    var after := mid + ([tl] + rest);
    assert pre + [tm] + mid + [tl] + rest == pre + ([tm] + after);
    SkipNeutral(pre, [tm] + after, "", "");
    ScanModeToken(m, "", "");
    ClassifyCons(tm, after, "", "");
    SkipNeutral(mid, [tl] + rest, m, "");
    ScanSystemToken(l, m, "");
    ClassifyCons(tl, rest, m, "");
  }

  /** ... or a label token first, then the mode token. */
  lemma LabelThenMode(pre: seq<string>, l: string, mid: seq<string>, m: string, rest: seq<string>)
    requires m == "install" || m == "recover"
    requires l != ""
    requires forall t <- pre :: Neutral(t)
    requires forall t <- mid :: Neutral(t)
    ensures Classify(pre + [SystemPrefix + l] + mid + [ModePrefix + m] + rest, "", "") == Ok(Parsed(m, l))
  {
    var tm, tl := ModePrefix + m, SystemPrefix + l;
    var after := mid + ([tm] + rest);
    assert pre + [tl] + mid + [tm] + rest == pre + ([tl] + after);
    SkipNeutral(pre, [tl] + after, "", "");
    ScanSystemToken(l, "", "");
    ClassifyCons(tl, after, "", "");
    SkipNeutral(mid, [tm] + rest, "", l);
    ScanModeToken(m, "", l);
    ClassifyCons(tm, rest, "", l);
  }

  /** A mode token alone is not enough: without a sysLabel the input runs out. */
  lemma {:induction false} NoLabelCannotDetect(ts: seq<string>, mode: string)
    requires PendingMode(mode)
    requires forall t <- ts :: !HasPrefix(t, SystemPrefix)
    requires forall t <- ts :: HasPrefix(t, ModePrefix) ==> ModeValue(t) in {"install", "recover"}
    ensures Classify(ts, mode, "") == Err(CannotDetectMode)
    decreases |ts|
  {
    if ts != [] {
      assert ts[0] in ts;
      var mode' := if HasPrefix(ts[0], ModePrefix) then ModeValue(ts[0]) else mode;
      assert ScanToken(ts[0], mode, "") == Undecided(mode', "");
      assert forall t <- ts[1..] :: t in ts;
      NoLabelCannotDetect(ts[1..], mode');
    }
  }

  /** Without any mode token the command line never classifies. */
  lemma {:induction false} NoModeCannotDetect(ts: seq<string>, sysLabel: string)
    requires forall t <- ts :: !HasPrefix(t, ModePrefix)
    ensures Classify(ts, "", sysLabel) == Err(CannotDetectMode)
    decreases |ts|
  {
    if ts != [] {
      assert ts[0] in ts;
      var sysLabel' := if HasPrefix(ts[0], SystemPrefix) then SystemValue(ts[0]) else sysLabel;
      assert ScanToken(ts[0], "", sysLabel) == Undecided("", sysLabel');
      assert forall t <- ts[1..] :: t in ts;
      NoModeCannotDetect(ts[1..], sysLabel');
    }
  }

  /** The mode token at position j carries mode m. */
  predicate ModeAt(ts: seq<string>, j: int, m: string) {
    0 <= j < |ts| && HasPrefix(ts[j], ModePrefix) && ModeValue(ts[j]) == m
  }

  /** The system token at position j carries label l. */
  predicate LabelAt(ts: seq<string>, j: int, l: string) {
    0 <= j < |ts| && HasPrefix(ts[j], SystemPrefix) && SystemValue(ts[j]) == l
  }

  /** A successful classification returns a mode and a label that tokens of
      the input carry (or that were seen before them). */
  lemma {:induction false} SuccessIsWitnessed(ts: seq<string>, mode: string, sysLabel: string)
    requires PendingMode(mode)
    requires Classify(ts, mode, sysLabel).Ok?
    ensures var p := Classify(ts, mode, sysLabel).value;
      && (p.mode == "run" ==> exists j :: ModeAt(ts, j, "run"))
      && (p.mode != "run" ==> p.mode == mode || exists j :: ModeAt(ts, j, p.mode))
      && (p.mode != "run" ==> p.sysLabel == sysLabel || exists j :: LabelAt(ts, j, p.sysLabel))
    decreases |ts|
  {
    var t := ts[0];
    var p := Classify(ts, mode, sysLabel).value;
    assert HasPrefix(t, ModePrefix) ==> ModeAt(ts, 0, ModeValue(t));
    assert HasPrefix(t, SystemPrefix) ==> LabelAt(ts, 0, SystemValue(t));
    match ScanToken(t, mode, sysLabel)
    case Decided(_) =>
    case Undecided(mode', sysLabel') =>
      ScanTokenShape(t, mode, sysLabel);
      SuccessIsWitnessed(ts[1..], mode', sysLabel');
      forall j, m | ModeAt(ts[1..], j, m) ensures ModeAt(ts, j + 1, m) {
        assert ts[j + 1] == ts[1..][j];
      }
      forall j, l | LabelAt(ts[1..], j, l) ensures LabelAt(ts, j + 1, l) {
        assert ts[j + 1] == ts[1..][j];
      }
  }

  /** The fresh-install command line
      "snapd_recovery_mode=install snapd_recovery_system=20231001"
      classifies as install with its label. */
  lemma FreshInstallCmdline(cmdline: string)
    requires cmdline == ModePrefix + "install" + " " + SystemPrefix + "20231001"
    ensures Classify(Words(cmdline), "", "") == Ok(Parsed("install", "20231001"))
  {
    var tm, tl := ModePrefix + "install", SystemPrefix + "20231001";
    PrefixesAreWords();
    WordConcat(ModePrefix, "install");
    WordConcat(SystemPrefix, "20231001");
    WordsOfUnwords([tm, tl]);
    assert Unwords([tm, tl]) == tm + " " + tl;
    assert cmdline == tm + " " + tl;
    var ts: seq<string> := [] + [tm] + [] + [tl] + [];
    assert ts == [tm, tl];
    ModeThenLabel([], "install", [], "20231001", []);
  }

  /** The mode and label tokens of a typical installer command line are
      found among the other kernel parameters. */
  lemma TypicalInstallTokens(ts: seq<string>)
    requires ts == ["console=ttyS0", ModePrefix + "install", "quiet", SystemPrefix + "20191118"]
    ensures Classify(ts, "", "") == Ok(Parsed("install", "20191118"))
  {
    var c, q := "console=ttyS0", "quiet";
    assert Neutral(c) by { assert c[1] != ModePrefix[1] && c[1] != SystemPrefix[1]; }
    assert Neutral(q);
    assert ts == [c] + [ModePrefix + "install"] + [q] + [SystemPrefix + "20191118"] + [];
    ModeThenLabel([c], "install", [q], "20191118", []);
  }

  /** A bogus mode is a classification error distinct from "mode absent". */
  lemma BogusModeCmdline(cmdline: string)
    requires cmdline == ModePrefix + "bogus"
    ensures Classify(Words(cmdline), "", "") == Err(UnknownMode("bogus"))
  {
    PrefixesAreWords();
    WordConcat(ModePrefix, "bogus");
    WordsOfUnwords([cmdline]);
    UnknownModeFailsAtOnce("bogus", [], "", "");
    assert [cmdline] + [] == [cmdline];
  }

  /** run mode classifies without any recovery-system token. */
  lemma RunCmdline(cmdline: string)
    requires cmdline == ModePrefix + "run"
    ensures Classify(Words(cmdline), "", "") == Ok(Parsed("run", ""))
  {
    PrefixesAreWords();
    WordConcat(ModePrefix, "run");
    WordsOfUnwords([cmdline]);
    RunShortCircuits([], "", "");
    assert [cmdline] + [] == [cmdline];
  }

  /** Neither prefix contains a space. */
  lemma PrefixesAreWords()
    ensures IsWord(ModePrefix) && IsWord(SystemPrefix)
  {
  }
}
