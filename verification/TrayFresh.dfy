/** The first save, when there is no configuration yet: it writes, edit by edit, what
    `serialize_raios_config` writes at once. */
module TrayFresh {
  import opened Seqs
  import opened Text
  import opened TrayConfig
  import opened TraySave
  import Read = TrayRead

  function LineOf(s: Setting): string {
    SettingText(s.key, s.value)
  }

  // ----- one edit that finds nothing -----

  predicate NoneAssigns(lines: seq<string>, key: string) {
    forall i :: 0 <= i < |lines| ==> !Assigns(lines[i], key)
  }

  predicate NoHeaders(lines: seq<string>) {
    forall i :: 0 <= i < |lines| ==> !IsHeaderLine(lines[i])
  }

  lemma {:induction false} NoneFound(p: string -> bool, ls: seq<string>)
    requires forall i :: 0 <= i < |ls| ==> !p(ls[i])
    ensures FirstIndex(p, ls) == |ls|
  {
    assert ls[..|ls|] == ls;
    StoppedAt(p, ls, |ls|);
  }

  /** Without the key in its range, which goes to the end, the line is added there. */
  lemma AddedAtEnd(lines: seq<string>, s: Setting)
    requires HasSection(lines, s.section) && RangeEnd(lines, s.section) == |lines| && NoneAssigns(lines, s.key)
    ensures UpsertLines(lines, s) == lines + [LineOf(s)]
  {
    hide HasSection, RangeEnd, Assigns, SettingText;
    var i := KeyIndex(lines, s.section, s.key);
    assert i == |lines|;
    assert lines[..|lines|] == lines;
  }

  lemma TopAdded(lines: seq<string>, s: Setting)
    requires s.section.None? && NoHeaders(lines) && NoneAssigns(lines, s.key)
    ensures UpsertLines(lines, s) == lines + [LineOf(s)]
  {
    hide IsHeaderLine, NoneAssigns, UpsertLines, FirstIndex;
    NoneFound(IsHeaderLine, lines);
    AddedAtEnd(lines, s);
  }

  lemma DaemonAdded(lines: seq<string>, s: Setting, h: nat)
    requires s.section.Some? && h < |lines| && IsSectionHeader(s.section.value, lines[h]) && NoneAssigns(lines, s.key)
    ensures UpsertLines(lines, s) == lines + [LineOf(s)]
  {
    hide IsSectionHeader, NoneAssigns, UpsertLines;
    HeaderFound(lines, s.section.value, h);
    AddedAtEnd(lines, s);
  }

  lemma HeaderFound(lines: seq<string>, section: string, h: nat)
    requires h < |lines| && IsSectionHeader(section, lines[h])
    ensures HasSection(lines, Some(section))
  {
    hide IsSectionHeader, FirstIndex;
    var n := HeaderIndex(lines, section);
    HeaderOfIs(section, lines[h]);
    assert forall i :: 0 <= i < n ==> lines[..n][i] == lines[i];
  }

  lemma DaemonStarted(lines: seq<string>, s: Setting)
    requires s.section.Some? && NoHeaders(lines)
    ensures UpsertLines(lines, s) == lines + SectionLines(s.section.value) + [LineOf(s)]
  {
    hide IsHeaderLine, FirstIndex, SectionLines;
    var section := s.section.value;
    forall i | 0 <= i < |lines| ensures !HeaderOf(section)(lines[i]) {
      HeaderOfIs(section, lines[i]);
      if IsSectionHeader(section, lines[i]) { SectionHeaderIsHeader(section, lines[i]); }
    }
    NoneFound(HeaderOf(section), lines);
  }

  // ----- the lines written so far -----

  /** Settings of keys of their own, in one section, that the tray may set. */
  predicate AreNew(ss: seq<Setting>, section: Option<string>) {
    AllValid(ss) && DistinctKeys(ss) && forall i :: 0 <= i < |ss| ==> ss[i].section == section
  }

  lemma LinesAreOthers(ss: seq<Setting>, n: nat, s: Setting)
    requires n <= |ss| && AllValid(ss) && forall i :: 0 <= i < n ==> ss[i].key != s.key
    ensures NoHeaders(Map(LineOf, ss[..n])) && NoneAssigns(Map(LineOf, ss[..n]), s.key)
  {
    hide ValidSetting, IsHeaderLine, Assigns, SettingText;
    forall i | 0 <= i < n ensures Neutral(Map(LineOf, ss[..n])[i], s.key) {
      SettingTextIsNeutral(ss[i], s.key);
    }
  }

  lemma LinesNext(ss: seq<Setting>, n: nat)
    requires n < |ss|
    ensures Map(LineOf, ss[..n + 1]) == Map(LineOf, ss[..n]) + [LineOf(ss[n])]
    ensures ss[..n + 1] == ss[..n] + [ss[n]]
  {
    hide LineOf;
  }

  lemma NothingSaved(content: string, ss: seq<Setting>)
    ensures Save(content, ss[..0]) == content && Map(LineOf, ss[..0]) == [] && SplitInclusive("") == [] && Whole("")
  {
  }

  lemma {:induction false} TopSaved(ss: seq<Setting>, n: nat)
    requires AreNew(ss, None) && n <= |ss|
    ensures var text := Save("", ss[..n]); Whole(text) && SplitInclusive(text) == Map(LineOf, ss[..n])
  {
    hide *;
    if n == 0 {
      NothingSaved("", ss);
    } else {
      var s, before := ss[n - 1], Save("", ss[..n - 1]);
      TopSaved(ss, n - 1);
      OneOfThem(ss, None, n - 1);
      LinesNext(ss, n - 1);
      SaveAppend("", ss[..n - 1], s);
      UpsertByLines(before, s);
      LinesAreOthers(ss, n - 1, s);
      TopAdded(SplitInclusive(before), s);
    }
  }

  lemma OneOfThem(ss: seq<Setting>, section: Option<string>, n: nat)
    requires AreNew(ss, section) && n < |ss|
    ensures AllValid(ss) && ValidSetting(ss[n]) && ss[n].section == section
    ensures forall i :: 0 <= i < n ==> ss[i].key != ss[n].key
  {
    hide ValidSetting;
  }

  lemma {:induction false} DaemonSaved(content: string, lines: seq<string>, ss: seq<Setting>, section: string, n: nat)
    requires Whole(content) && SplitInclusive(content) == lines && NoHeaders(lines)
    requires AreNew(ss, Some(section)) && forall i :: 0 <= i < |ss| ==> NoneAssigns(lines, ss[i].key)
    requires 0 < n <= |ss|
    ensures var text := Save(content, ss[..n]);
            Whole(text) && SplitInclusive(text) == lines + SectionLines(section) + Map(LineOf, ss[..n])
  {
    hide *;
    var s, before := ss[n - 1], Save(content, ss[..n - 1]);
    OneOfThem(ss, Some(section), n - 1);
    LinesNext(ss, n - 1);
    SaveAppend(content, ss[..n - 1], s);
    if n == 1 {
      NothingSaved(content, ss);
      UpsertByLines(content, s);
      DaemonStarted(lines, s);
    } else {
      DaemonSaved(content, lines, ss, section, n - 1);
      UpsertByLines(before, s);
      LinesAreOthers(ss, n - 1, s);
      var written := Map(LineOf, ss[..n - 1]);
      StillNone(lines, section, written, s.key);
      DaemonAdded(lines + SectionLines(section) + written, s, |lines| + 1);
      assert lines + SectionLines(section) + written + [LineOf(s)]
        == lines + SectionLines(section) + (written + [LineOf(s)]);
    }
  }

  lemma StillNone(lines: seq<string>, section: string, written: seq<string>, key: string)
    requires NoneAssigns(lines, key) && NoneAssigns(written, key)
    ensures var all := lines + SectionLines(section) + written;
            NoneAssigns(all, key) && |lines| + 1 < |all| && IsSectionHeader(section, all[|lines| + 1])
  {
    hide Assigns, IsSectionHeader, HeaderText;
    HeaderAssignsNothing(section, key);
    HeaderLineReads(section);
  }

  // ----- the whole file -----

  function TextLine(config: Config): string -> string {
    key => key + " = " + TomlString(Read.TextOf(config, key))
  }

  function FlagLine(config: Config): string -> string {
    key => key + " = " + TomlBool(Read.IsSet(config, key))
  }

  function NumberLine(config: Config): string -> string {
    key => key + " = " + IntText(Read.NumberOf(config, key))
  }

  /** `serialize_raios_config`, with the keys written out. */
  function Serialized(config: Config): string {
    JoinLines(
      Map(TextLine(config),
          ["dev_ops_path", "master_md_path", "skills_path", "vault_projects_path", "system_name", "github_user"])
      + ["", "[daemon]"]
      + Map(FlagLine(config),
            ["startup_bm25_indexing", "startup_cortex_indexing", "enable_health_worker", "enable_sentinel_worker",
             "enable_port_monitor"])
      + Map(NumberLine(config),
            ["health_interval_secs", "git_interval_secs", "sentinel_interval_secs", "port_monitor_interval_secs",
             "port_probe_timeout_ms", "lifecycle_standby_days", "lifecycle_archive_days", "lifecycle_interval_secs"])
      + [""])
  }

  lemma SerializedIs(config: Config)
    ensures Serialized(config) ==
      JoinLines(Map(TextLine(config), TOP_LEVEL_KEYS) + ["", "[daemon]"] + Map(FlagLine(config), DAEMON_BOOL_KEYS)
                + Map(NumberLine(config), DAEMON_INT_KEYS) + [""])
  {
    hide TextLine, FlagLine, NumberLine, Map, JoinLines;
  }

  lemma {:induction false} JoinedIsEnded(ls: seq<string>)
    ensures JoinLines(ls + [""]) == Flatten(Map(WithBreak, ls))
  {
    if ls == [] {
      assert ls + [""] == [""];
    } else {
      JoinedIsEnded(ls[1..]);
      assert (ls + [""])[1..] == ls[1..] + [""];
      assert Map(WithBreak, ls)[1..] == Map(WithBreak, ls[1..]);
    }
  }

  lemma SameLines(setting: string -> Setting, line: string -> string, keys: seq<string>)
    requires forall key :: LineOf(setting(key)) == WithBreak(line(key))
    ensures Map(LineOf, Map(setting, keys)) == Map(WithBreak, Map(line, keys))
  {
    hide LineOf, WithBreak;
  }

  lemma SettingLines(config: Config, key: string)
    ensures LineOf(TextSetting(config)(key)) == WithBreak(TextLine(config)(key))
    ensures LineOf(FlagSetting(config)(key)) == WithBreak(FlagLine(config)(key))
    ensures LineOf(NumberSetting(config)(key)) == WithBreak(NumberLine(config)(key))
  {
    hide TomlString, TomlBool, IntText;
  }

  lemma MapConcat(a: seq<string>, b: seq<string>)
    ensures Map(WithBreak, a + b) == Map(WithBreak, a) + Map(WithBreak, b)
  {
    MapAppend(WithBreak, a, b);
  }

  lemma SectionIs()
    ensures SectionLines("daemon") == Map(WithBreak, ["", "[daemon]"])
  {
    assert "" + "\n" == "\n" && HeaderText("daemon") == "[daemon]";
    var found := Map(WithBreak, ["", "[daemon]"]);
    assert found[0] == WithBreak("") && found[1] == WithBreak("[daemon]");
  }

  /** The settings of the two parts, with keys of their own. */
  lemma PartsAreNew(config: Config)
    ensures var tops, rest := Map(TextSetting(config), TOP_LEVEL_KEYS),
                              Map(FlagSetting(config), DAEMON_BOOL_KEYS) + Map(NumberSetting(config), DAEMON_INT_KEYS);
            && Settings(config) == tops + rest && AreNew(tops, None) && AreNew(rest, Some("daemon")) && rest != []
            && forall i, j :: 0 <= i < |tops| && 0 <= j < |rest| ==> tops[i].key != rest[j].key
  {
    hide *;
    var tops, flags, numbers := Map(TextSetting(config), TOP_LEVEL_KEYS), Map(FlagSetting(config), DAEMON_BOOL_KEYS),
                                Map(NumberSetting(config), DAEMON_INT_KEYS);
    var rest := flags + numbers;
    SettingsParts(config);
    SettingsAreValid(config);
    SectionsAre(config);
    assert Settings(config) == tops + rest;
    AreNewParts(tops, rest);
    SomeFlag();
    assert |rest| > 0;
  }

  lemma SectionsAre(config: Config)
    ensures forall i :: 0 <= i < |TOP_LEVEL_KEYS| ==> Map(TextSetting(config), TOP_LEVEL_KEYS)[i].section == None
    ensures var rest := Map(FlagSetting(config), DAEMON_BOOL_KEYS) + Map(NumberSetting(config), DAEMON_INT_KEYS);
            forall i :: 0 <= i < |rest| ==> rest[i].section == Some("daemon")
  {
    hide TomlString, TomlBool, IntText, TOP_LEVEL_KEYS, DAEMON_BOOL_KEYS, DAEMON_INT_KEYS;
  }

  lemma AreNewParts(tops: seq<Setting>, rest: seq<Setting>)
    requires AllValid(tops + rest) && DistinctKeys(tops + rest)
    requires forall i :: 0 <= i < |tops| ==> tops[i].section == None
    requires forall i :: 0 <= i < |rest| ==> rest[i].section == Some("daemon")
    ensures AreNew(tops, None) && AreNew(rest, Some("daemon"))
    ensures forall i, j :: 0 <= i < |tops| && 0 <= j < |rest| ==> tops[i].key != rest[j].key
  {
    hide ValidSetting;
    var all := tops + rest;
    assert forall i :: 0 <= i < |tops| ==> tops[i] == all[i];
    assert forall i :: 0 <= i < |rest| ==> rest[i] == all[|tops| + i];
  }

  /** Saving when there is no file, one edit after the other, gives the serialized configuration. */
  lemma FreshSaveIsSerialized(config: Config)
    ensures SaveConfig("", config) == Serialized(config)
  {
    hide *;
    var tops, rest := Map(TextSetting(config), TOP_LEVEL_KEYS),
                      Map(FlagSetting(config), DAEMON_BOOL_KEYS) + Map(NumberSetting(config), DAEMON_INT_KEYS);
    PartsAreNew(config);
    SaveConfigIs("", config);
    SaveConcat("", tops, rest);
    var lines := Map(LineOf, tops);
    TopSaved(tops, |tops|);
    assert tops[..|tops|] == tops && rest[..|rest|] == rest;
    var text := Save("", tops);
    RestIsNew(tops, rest);
    DaemonSaved(text, lines, rest, "daemon", |rest|);
    SplitThenFlatten(Save(text, rest));
    SerializedLines(config);
  }

  lemma RestIsNew(tops: seq<Setting>, rest: seq<Setting>)
    requires AreNew(tops, None) && rest != []
    requires forall i, j :: 0 <= i < |tops| && 0 <= j < |rest| ==> tops[i].key != rest[j].key
    ensures NoHeaders(Map(LineOf, tops))
    ensures forall j :: 0 <= j < |rest| ==> NoneAssigns(Map(LineOf, tops), rest[j].key)
  {
    hide NoHeaders, NoneAssigns, LineOf, ValidSetting;
    assert tops[..|tops|] == tops;
    forall j | 0 <= j < |rest|
      ensures NoHeaders(Map(LineOf, tops)) && NoneAssigns(Map(LineOf, tops), rest[j].key)
    {
      LinesAreOthers(tops, |tops|, rest[j]);
    }
    assert NoneAssigns(Map(LineOf, tops), rest[0].key);
  }

  lemma SerializedLines(config: Config)
    ensures var tops, rest := Map(TextSetting(config), TOP_LEVEL_KEYS),
                              Map(FlagSetting(config), DAEMON_BOOL_KEYS) + Map(NumberSetting(config), DAEMON_INT_KEYS);
            Serialized(config) == Flatten(Map(LineOf, tops) + SectionLines("daemon") + Map(LineOf, rest))
  {
    hide *;
    var a, b, c := Map(TextLine(config), TOP_LEVEL_KEYS), Map(FlagLine(config), DAEMON_BOOL_KEYS),
                   Map(NumberLine(config), DAEMON_INT_KEYS);
    SerializedIs(config);
    JoinedIsEnded(a + ["", "[daemon]"] + b + c);
    MapConcat(a + ["", "[daemon]"] + b, c);
    MapConcat(a + ["", "[daemon]"], b);
    MapConcat(a, ["", "[daemon]"]);
    SectionIs();
    forall key
      ensures LineOf(TextSetting(config)(key)) == WithBreak(TextLine(config)(key))
      ensures LineOf(FlagSetting(config)(key)) == WithBreak(FlagLine(config)(key))
      ensures LineOf(NumberSetting(config)(key)) == WithBreak(NumberLine(config)(key))
    {
      SettingLines(config, key);
    }
    SameLines(TextSetting(config), TextLine(config), TOP_LEVEL_KEYS);
    SameLines(FlagSetting(config), FlagLine(config), DAEMON_BOOL_KEYS);
    SameLines(NumberSetting(config), NumberLine(config), DAEMON_INT_KEYS);
    MapAppend(LineOf, Map(FlagSetting(config), DAEMON_BOOL_KEYS), Map(NumberSetting(config), DAEMON_INT_KEYS));
    assert Map(WithBreak, a) + Map(WithBreak, ["", "[daemon]"]) + Map(WithBreak, b) + Map(WithBreak, c)
      == Map(WithBreak, a) + Map(WithBreak, ["", "[daemon]"]) + (Map(WithBreak, b) + Map(WithBreak, c));
  }
}
