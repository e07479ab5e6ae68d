/** The spectator's backup and restore of video.ini around launches and kills. */
module VideoBackup {
  import opened Wrappers
  import opened IniMerge
  import opened IniStability

  type Content = string

  /** The two files, the process handle and the group being watched. */
  datatype Machine = Machine(video: Option<Content>, backup: Option<Content>, process: Option<nat>,
      group: Option<string>)

  /** How writing the settings may end; a write that breaks off leaves whatever it had written. */
  datatype Writing = Written | Unreadable | BackupBroken(left: Option<Content>) | SettingsBroken(text: Content)

  datatype Restoring = Restored | CopyBroken(left: Option<Content>) | BackupNotRemoved

  function Low(t: Content): Content {
    ProfilesProper();
    Rewrite(LOW, t)
  }

  /** The settings are written over the file, after a backup unless one exists. */
  function WriteLow(m: Machine, o: Writing): Machine {
    if m.video.None? || o.Unreadable? then m
    else if m.backup.None? && o.BackupBroken? then m.(backup := o.left)
    else
      var backed := if m.backup.None? then m.(backup := m.video) else m;
      match o
      case SettingsBroken(text) => backed.(video := Some(text))
      case _ => backed.(video := Some(Low(m.video.value)))
  }

  function Restore(m: Machine, o: Restoring): Machine {
    if m.backup.None? then m
    else match o
      case Restored => m.(video := m.backup, backup := None)
      case CopyBroken(left) => m.(video := left)
      case BackupNotRemoved => m.(video := m.backup)
  }

  /**
    What the surroundings do during a launch: the old process, the writes,
    race.ini, the executable and the new process.
  */
  datatype Launching = Launching(group: string, alive: bool, writing: Writing, raceIni: bool, exe: bool,
      pid: Option<nat>, restoring: Restoring)

  function Launched(m: Machine, l: Launching): Machine {
    var stopped := if m.process.Some? && l.alive then m.(process := None, group := None) else m;
    var written := WriteLow(stopped, l.writing);
    if !l.raceIni || !l.exe then written
    else if l.pid.Some? then written.(process := l.pid, group := Some(l.group))
    else Restore(written, l.restoring)
  }

  function Killed(m: Machine, alive: bool, o: Restoring): Machine {
    if m.process.None? || !alive then m.(group := None)
    else Restore(m.(process := None, group := None), o)
  }

  datatype Op = Launch(l: Launching) | Kill(alive: bool, restoring: Restoring)

  function Apply(m: Machine, op: Op): Machine {
    match op
    case Launch(l) => Launched(m, l)
    case Kill(alive, o) => Killed(m, alive, o)
  }

  function Run(m: Machine, ops: seq<Op>): Machine {
    if ops == [] then m else Apply(Run(m, ops[..|ops| - 1]), ops[|ops| - 1])
  }

  /** The backup if there is one, else the file itself. */
  function Original(m: Machine): Option<Content> {
    if m.backup.Some? then m.backup else m.video
  }

  /** A first backup breaks off with something other than the whole file in it. */
  predicate LosesOriginal(m: Machine, op: Op) {
    && op.Launch? && m.backup.None? && m.video.Some?
    && op.l.writing.BackupBroken? && op.l.writing.left.Some? && op.l.writing.left != m.video
  }

  /** Over every launch and kill the original survives, except exactly when a first backup breaks off. */
  lemma StepKeepsOriginal(m: Machine, op: Op)
    ensures Original(Apply(m, op)) == Original(m) <==> !LosesOriginal(m, op)
  {
    hide Low;
  }

  lemma {:induction false} OriginalKept(m: Machine, ops: seq<Op>)
    requires forall i :: 0 <= i < |ops| ==> !LosesOriginal(Run(m, ops[..i]), ops[i])
    ensures Original(Run(m, ops)) == Original(m)
  {
    hide Apply, LosesOriginal, Original;
    if ops != [] {
      var init := ops[..|ops| - 1];
      assert forall i :: 0 <= i < |init| ==> init[..i] == ops[..i];
      OriginalKept(m, init);
      StepKeepsOriginal(Run(m, init), ops[|ops| - 1]);
    }
  }

  predicate Smooth(op: Op) {
    match op
    case Launch(l) => l.writing.Written? && (l.restoring.Restored? || l.pid.Some?)
    case Kill(_, o) => o.Restored?
  }

  /** Where the file stands when nothing fails: the original, or its low-quality form beside the backup. */
  ghost predicate Tidy(m: Machine, original: Content) {
    || (m.video == Some(original) && m.backup == None)
    || (m.video == Some(Low(original)) && m.backup == Some(original))
  }

  /** The file ends with a newline, or its open end meets the condition. */
  predicate Settles(t: Content) {
    ProfilesProper();
    !OpenEnded(t) || (Lines(t) != [] && SettledOpen(LOW, Lines(t)))
  }

  lemma LowTwiceIff(t: Content)
    ensures Low(Low(t)) == Low(t) <==> Settles(t)
  {
    hide SettledOpen, Rewrite, Lines, LOW, PURE;
    BothRewritesTwiceIff(t);
  }

  /** Launches pile up without harm on such files: the settings are applied once however often the game is launched. */
  lemma {:induction false} LaunchesDoNotPileUp(m: Machine, original: Content, ops: seq<Op>)
    requires Tidy(m, original) && Settles(original)
    requires forall i :: 0 <= i < |ops| ==> Smooth(ops[i])
    ensures Tidy(Run(m, ops), original)
  {
    hide Low, Settles;
    if ops != [] {
      LaunchesDoNotPileUp(m, original, ops[..|ops| - 1]);
      assert Smooth(ops[|ops| - 1]);
      LowTwiceIff(original);
    }
  }

  /** And on no others: two launches in a row apply them twice. */
  lemma SecondLaunchTidyIff(m: Machine, original: Content, first: Launching, second: Launching)
    requires m.video == Some(original) && m.backup == None
    requires Smooth(Launch(first)) && Smooth(Launch(second)) && first.pid.Some? && second.pid.Some?
    ensures Tidy(Launched(Launched(m, first), second), original) <==> Settles(original)
  {
    hide Low, Settles;
    LowTwiceIff(original);
  }

  /**
    After any run that has not lost it, a kill leaves the original file and no
    backup exactly when there was no backup, or the game was live and the restore
    did not fail. A game that ended by itself leaves the low-quality file.
  */
  lemma KillRestoresIff(m: Machine, ops: seq<Op>, alive: bool, o: Restoring)
    requires forall i :: 0 <= i < |ops| ==> !LosesOriginal(Run(m, ops[..i]), ops[i])
    ensures var before := Run(m, ops);
      var after := Apply(before, Kill(alive, o));
      (after.video == Original(m) && after.backup == None)
      <==> before.backup == None || (before.process.Some? && alive && o.Restored?)
  {
    hide Run;
    OriginalKept(m, ops);
  }

  /**
    A launch whose process does not start leaves the original file and no backup
    exactly when none was made, or when the restore did not fail and no first
    backup had broken off.
  */
  lemma FailedStartRestoresIff(m: Machine, l: Launching)
    requires l.raceIni && l.exe && l.pid.None?
    ensures var after := Launched(m, l);
      var none := m.backup.None? && (m.video.None? || l.writing == Unreadable || l.writing == BackupBroken(None));
      (after.video == (if m.backup.Some? then m.backup else m.video) && after.backup == None)
      <==> none || (l.restoring == Restored && !LosesOriginal(m, Launch(l)))
  {
    hide Low;
  }

  /** The process is the new one if it started; the group goes with it, and with the old process when that is ended. */
  lemma LaunchedProcess(m: Machine, l: Launching)
    ensures var after := Launched(m, l);
      var kept := if m.process.Some? && l.alive then (None, None) else (m.process, m.group);
      (after.process, after.group) ==
      if l.raceIni && l.exe && l.pid.Some? then (l.pid, Some(l.group)) else kept
  {
    hide Low;
  }

  /**
    A launch that starts, or that stops before the process for want of race.ini or
    the executable, has written the settings over the file, beside the backup: the
    old one if there was one, else a copy of the file. What could not be read or
    backed up is left alone.
  */
  lemma LaunchedFiles(m: Machine, l: Launching)
    requires !l.raceIni || !l.exe || l.pid.Some?
    ensures ProperProfile(LOW)
    ensures var after := Launched(m, l);
      && (m.video.None? || l.writing.Unreadable? ==> after.video == m.video && after.backup == m.backup)
      && (m.video.Some? && m.backup.None? && l.writing.BackupBroken? ==>
            after.video == m.video && after.backup == l.writing.left)
      && (m.video.Some? && (l.writing.Written? || l.writing.SettingsBroken?
                            || (l.writing.BackupBroken? && m.backup.Some?)) ==>
            && after.backup == (if m.backup.Some? then m.backup else m.video)
            && after.video == Some(if l.writing.SettingsBroken? then l.writing.text
                                   else Rewrite(LOW, m.video.value)))
  {
    hide Rewrite, LOW;
    ProfilesProper();
  }

  /** A kill of the live game ends it and copies the backup back, if there is one; any other only forgets the group. */
  lemma KilledFields(m: Machine, alive: bool, o: Restoring)
    ensures var after := Killed(m, alive, o);
      && after.group == None
      && (m.process.None? || !alive ==> after == m.(group := None))
      && (m.process.Some? && alive ==>
            && after.process == None
            && (m.backup.None? ==> after.video == m.video && after.backup == None)
            && (m.backup.Some? ==>
                  && after.video == (if o.CopyBroken? then o.left else m.backup)
                  && after.backup == (if o.Restored? then None else m.backup)))
  {}

  // ----- the service

  class SpectatorService {
    var video: Option<Content>
    var backup: Option<Content>
    var process: Option<nat>
    var activeGroup: Option<string>

    ghost function View(): Machine
      reads this
    {
      Machine(video, backup, process, activeGroup)
    }

    /** The lines of the file go through the merge; says whether the settings were written. */
    method WriteLowQualityVideoIni(o: Writing) returns (written: bool)
      modifies this
      ensures View() == WriteLow(old(View()), o)
      ensures written <==> old(video).Some? && (o.Written? || (o.BackupBroken? && old(backup).Some?))
    {
      hide Merge, Lines, Text;
      if video.None? || o.Unreadable? {
        return false;
      }
      if backup.None? {
        if o.BackupBroken? {
          backup := o.left;
          return false;
        }
        backup := video;
      }
      if o.SettingsBroken? {
        video := Some(o.text);
        return false;
      }
      var newLines := IniMerge.WriteLowQualityVideoIni(Lines(video.value));
      video := Some(Text(newLines));
      return true;
    }

    method RestoreVideoIni(o: Restoring)
      modifies this
      ensures View() == Restore(old(View()), o)
    {
      if backup.Some? {
        if o.CopyBroken? {
          video := o.left;
          return;
        }
        video := backup;
        if o.Restored? {
          backup := None;
        }
      }
    }

    method KillProcess()
      modifies this`process, this`activeGroup
      ensures process == None && activeGroup == None
    {
      process := None;
      activeGroup := None;
    }

    method LaunchSpectator(l: Launching) returns (pid: Option<nat>)
      modifies this
      ensures View() == Launched(old(View()), l)
      ensures pid == if l.raceIni && l.exe then l.pid else None
    {
      hide WriteLow, Restore;
      if process.Some? && l.alive {
        KillProcess();
      }
      var _ := WriteLowQualityVideoIni(l.writing);
      if !l.raceIni || !l.exe {
        return None;
      }
      if l.pid.None? {
        RestoreVideoIni(l.restoring);
        return None;
      }
      process := l.pid;
      activeGroup := Some(l.group);
      return l.pid;
    }

    method KillSpectator(alive: bool, o: Restoring)
      modifies this
      ensures View() == Killed(old(View()), alive, o)
    {
      if process.None? || !alive {
        activeGroup := None;
        return;
      }
      KillProcess();
      RestoreVideoIni(o);
    }
  }
}
