/** The managed host's half of the lockout guard: the ufw files, the live
    firewall, the dead-man timer and the snapshot its script restores. */
module GuardHost {
  import opened Options

  datatype File = UserRules | User6Rules | UfwConf

  /** The files a snapshot holds, in the order they are copied. */
  const FILES: seq<File> := [UserRules, User6Rules, UfwConf]

  type Files = map<File, string>

  datatype Live = Off | On(rules: Option<string>, rules6: Option<string>)

  /** The snapshot directory: the copies that succeeded, and the script. */
  datatype Snapshot = Snapshot(files: Files, script: bool)

  datatype Host = Host(files: Files, live: Live, timer: bool, dir: Option<Snapshot>)

  // ---------------- what ufw makes of its files ----------------

  const ENABLED := "ENABLED=yes"

  /** Some line starts with the marker. */
  predicate SaysEnabled(conf: string) {
    exists i :: 0 <= i <= |conf| && (i == 0 || conf[i - 1] == '\n') && ENABLED <= conf[i..]
  }

  /** The marker counts at the start of the text or of a line, and nowhere else. */
  lemma EnabledLines(head: string, tail: string)
    ensures SaysEnabled("ENABLED=yes" + tail) && SaysEnabled(head + "\nENABLED=yes" + tail)
    ensures !SaysEnabled("#ENABLED=yes") && !SaysEnabled("ENABLED=no")
  {
    assert ENABLED <= ("ENABLED=yes" + tail)[0..];
    var text := head + "\nENABLED=yes" + tail;
    assert text[|head|] == '\n' && ENABLED <= text[|head| + 1..];
    OneLine("#ENABLED=yes");
    assert "#ENABLED=yes"[0] != ENABLED[0];
    OneLine("ENABLED=no");
  }

  lemma OneLine(conf: string)
    requires '\n' !in conf
    ensures SaysEnabled(conf) <==> ENABLED <= conf
  {
    assert conf[0..] == conf;
    if SaysEnabled(conf) {
      var i :| 0 <= i <= |conf| && (i == 0 || conf[i - 1] == '\n') && ENABLED <= conf[i..];
    }
  }

  function Read(files: Files, f: File): Option<string> {
    if f in files then Some(files[f]) else None
  }

  predicate ConfOn(files: Files) {
    UfwConf in files && SaysEnabled(files[UfwConf])
  }

  /** The ruleset an enable or a disable leaves loaded. */
  function Reloaded(files: Files): Live {
    if ConfOn(files) then On(Read(files, UserRules), Read(files, User6Rules)) else Off
  }

  // ---------------- arming ----------------

  const ARM_COMMANDS := 6

  /** What the k-th arming command does when it takes effect: create the
      directory, copy three files, write the script, schedule the timer. */
  function ArmCommand(h: Host, k: nat): Host {
    if k == 0 then (if h.dir.None? then h.(dir := Some(Snapshot(map[], false))) else h)
    else if k <= 3 then
      if h.dir.Some? && FILES[k - 1] in h.files
      then h.(dir := Some(h.dir.value.(files := h.dir.value.files[FILES[k - 1] := h.files[FILES[k - 1]]])))
      else h
    else if k == 4 then (if h.dir.Some? then h.(dir := Some(h.dir.value.(script := true))) else h)
    else h.(timer := true)
  }

  /** The copies are best-effort; the other three commands must report success. */
  predicate MustSucceed(k: nat) {
    k == 0 || k >= 4
  }

  // ---------------- the restore script ----------------

  const LINES := 5

  /** Copy back each captured file, reload, remove the directory. */
  function ScriptLine(h: Host, k: nat): Host {
    if k < 3 then
      if h.dir.Some? && FILES[k] in h.dir.value.files
      then h.(files := h.files[FILES[k] := h.dir.value.files[FILES[k]]])
      else h
    else if k == 3 then h.(live := Reloaded(h.files))
    else h.(dir := None)
  }

  /** The script cut off after its first k lines. */
  function ScriptTo(h: Host, k: nat): Host {
    if k == 0 then h else ScriptLine(ScriptTo(h, k - 1), k - 1)
  }

  predicate HasScript(h: Host) {
    h.dir.Some? && h.dir.value.script
  }

  /** The timer goes off: its script runs to the end, if it is still there. */
  function Fired(h: Host): Host {
    var spent := h.(timer := false);
    if HasScript(h) then ScriptTo(spent, LINES) else spent
  }

  /** The captured copies laid over the files, loaded, the snapshot gone. */
  function Overlaid(h: Host, captured: Files): Host {
    Host(h.files + captured, Reloaded(h.files + captured), h.timer, None)
  }

  /** The copying lines touch the first k captured files and nothing else. */
  lemma {:induction false} ScriptCopies(h: Host, k: nat, f: File)
    requires h.dir.Some? && k <= |FILES|
    ensures ScriptTo(h, k) == h.(files := ScriptTo(h, k).files)
    ensures Read(ScriptTo(h, k).files, f)
            == if f in FILES[..k] && f in h.dir.value.files then Some(h.dir.value.files[f]) else Read(h.files, f)
  {
    if k > 0 {
      ScriptCopies(h, k - 1, f);
      assert FILES[..k] == FILES[..k - 1] + [FILES[k - 1]];
    }
  }

  /** The script, run to the end, is an overlay of what was captured, whatever
      happened to the files since. */
  lemma ScriptOverlays(h: Host)
    requires h.dir.Some?
    ensures ScriptTo(h, LINES) == Overlaid(h, h.dir.value.files)
  {
    var captured, copied := h.dir.value.files, ScriptTo(h, 3);
    forall f: File ensures Read(copied.files, f) == Read(h.files + captured, f) {
      ScriptCopies(h, 3, f);
      assert f in FILES[..3] by {
        match f
        case UserRules => assert f == FILES[..3][0];
        case User6Rules => assert f == FILES[..3][1];
        case UfwConf => assert f == FILES[..3][2];
      }
    }
    SameFiles(copied.files, h.files + captured);
    ScriptCopies(h, 3, UfwConf);
    assert ScriptTo(h, 4) == ScriptLine(copied, 3);
    assert ScriptTo(h, 5) == ScriptLine(ScriptTo(h, 4), 4);
  }

  lemma SameFiles(a: Files, b: Files)
    requires forall f: File :: Read(a, f) == Read(b, f)
    ensures a == b
  {
    forall f: File ensures (f in a <==> f in b) && (f in a ==> a[f] == b[f]) {
      assert Read(a, f) == Read(b, f);
    }
  }

  /** Firing twice, or after the script ran, changes nothing more. */
  lemma FiringIsIdempotent(h: Host)
    requires HasScript(h)
    ensures Fired(h) == Overlaid(h.(timer := false), h.dir.value.files) && Fired(Fired(h)) == Fired(h)
  {
    ScriptOverlays(h.(timer := false));
  }

  // ---------------- cancelling ----------------

  /** Stop the timer, then remove the directory. Neither waits for the other to
      succeed. */
  function Disarmed(h: Host, stopped: bool, removed: bool): Host {
    Host(h.files, h.live, h.timer && !stopped, if removed then None else h.dir)
  }

  // ---------------- being back on the snapshot ----------------

  predicate Agrees(files: Files, captured: Files, f: File) {
    f in captured ==> f in files && files[f] == captured[f]
  }

  ghost predicate Matches(files: Files, captured: Files) {
    forall f: File :: Agrees(files, captured, f)
  }

  /** Every captured file has its captured content, and is what is loaded. */
  ghost predicate BackOn(h: Host, captured: Files) {
    Matches(h.files, captured) && h.live == Reloaded(h.files)
  }

  /** One run of the script over a host that is still guarded puts it back; over
      one that is back, it changes no file. */
  lemma OverlayIsBack(h: Host, captured: Files)
    ensures BackOn(Overlaid(h, captured), captured)
    ensures Matches(h.files, captured) ==> Overlaid(h, captured).files == h.files
  {
    if Matches(h.files, captured) {
      forall f: File ensures Read(h.files + captured, f) == Read(h.files, f) {
        assert Agrees(h.files, captured, f);
      }
      SameFiles(h.files + captured, h.files);
    }
  }

  /** How far a script has brought the files back after k of its lines. */
  ghost predicate BackUpTo(h: Host, captured: Files, k: nat) {
    && (forall i :: 0 <= i < k && i < |FILES| ==> Agrees(h.files, captured, FILES[i]))
    && (k >= 4 ==> h.live == Reloaded(h.files))
  }

  lemma BackUpToEnd(h: Host, captured: Files, k: nat)
    requires BackUpTo(h, captured, k) && k >= 4
    ensures BackOn(h, captured)
  {
    AllBack(h, captured, k);
  }

  /** A script at line k is doing its work: what it passed is back, and the
      snapshot is in front of it or no file is left to restore. */
  ghost predicate Progress(h: Host, captured: Files, k: nat) {
    && k <= LINES && BackUpTo(h, captured, k)
    && (h.dir.Some? || Matches(h.files, captured))
  }

  /** A line of the script, with the snapshot in place or the files already back. */
  lemma LineAdvances(h: Host, captured: Files, k: nat)
    requires k < LINES && (h.dir.Some? ==> h.dir.value.files == captured)
    requires Progress(h, captured, k)
    ensures BackUpTo(ScriptLine(h, k), captured, k + 1)
    ensures k < 4 ==> ScriptLine(h, k).dir == h.dir
    ensures BackOn(h, captured) || k >= 3 ==> BackOn(ScriptLine(h, k), captured)
    ensures forall f: File :: Agrees(h.files, captured, f) ==> Agrees(ScriptLine(h, k).files, captured, f)
    ensures ScriptLine(h, k).timer == h.timer
  {
    var after := ScriptLine(h, k);
    forall f: File | Agrees(h.files, captured, f) ensures Agrees(after.files, captured, f) {
    }
    if BackOn(h, captured) {
      LineKeepsBack(h, captured, k);
    }
    if k >= 3 {
      assert BackUpTo(after, captured, k + 1);
      BackUpToEnd(after, captured, k + 1);
    }
  }

  /** Two scripts at work do not disturb each other: a line of one takes it
      forward and leaves the other where it was. */
  lemma LineKeepsProgress(h: Host, captured: Files, mine: nat, other: nat)
    requires mine < LINES && (h.dir.Some? ==> h.dir.value.files == captured)
    requires Progress(h, captured, mine) && Progress(h, captured, other)
    ensures Progress(ScriptLine(h, mine), captured, mine + 1) && Progress(ScriptLine(h, mine), captured, other)
  {
    LineAdvances(h, captured, mine);
    if mine >= 3 {
      AllBack(h, captured, mine);
    }
    if other >= 4 {
      BackUpToEnd(h, captured, other);
      LineKeepsBack(h, captured, mine);
    }
    if Matches(h.files, captured) {
      MatchesStays(h, captured, mine);
    }
  }

  lemma MatchesStays(h: Host, captured: Files, k: nat)
    requires (h.dir.Some? ==> h.dir.value.files == captured) && Matches(h.files, captured)
    ensures ScriptLine(h, k).files == h.files
  {
    if k < 3 {
      assert Agrees(h.files, captured, FILES[k]);
    }
  }

  lemma AllBack(h: Host, captured: Files, k: nat)
    requires BackUpTo(h, captured, k) && k >= 3
    ensures Matches(h.files, captured)
  {
    forall f: File ensures Agrees(h.files, captured, f) {
      match f
      case UserRules => assert f == FILES[0];
      case User6Rules => assert f == FILES[1];
      case UfwConf => assert f == FILES[2];
    }
  }

  lemma LineKeepsBack(h: Host, captured: Files, k: nat)
    requires h.dir.Some? ==> h.dir.value.files == captured
    requires BackOn(h, captured)
    ensures BackOn(ScriptLine(h, k), captured) && ScriptLine(h, k).files == h.files
  {
    if k < 3 {
      assert Agrees(h.files, captured, FILES[k]);
      assert ScriptLine(h, k).files == h.files;
    }
  }

  /** A script cut anywhere leaves a snapshot or leaves the host back on it. */
  lemma {:induction false} CutScript(h: Host, captured: Files, k: nat)
    requires k <= LINES && h.dir.Some? && h.dir.value.files == captured
    ensures var after := ScriptTo(h, k);
            && BackUpTo(after, captured, k) && after.timer == h.timer
            && (k < LINES ==> after.dir == h.dir) && (k == LINES ==> after.dir.None?)
            && (k >= 4 || BackOn(h, captured) ==> BackOn(after, captured))
            && (forall f: File :: Agrees(h.files, captured, f) ==> Agrees(after.files, captured, f))
  {
    if k > 0 {
      CutScript(h, captured, k - 1);
      LineAdvances(ScriptTo(h, k - 1), captured, k - 1);
    }
  }
}
