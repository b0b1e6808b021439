/** unitNameToServiceName against the naming scheme "XDG standardization for applications" of systemd's
    Desktop Environment Integration document. */
module UnitNames {
  import opened Sequences

  const APP := "app-"
  const SEPARATOR := '-'

  /** Everything up to the last '@', else up to the last '-', else all of it. */
  function ChopRandom(name: string): (r: string)
    ensures r <= name
  {
    var at := LastIndexOf(name, '@');
    if at >= 0 then name[..at]
    else
      var dash := LastIndexOf(name, SEPARATOR);
      if dash >= 0 then name[..dash] else name
  }

  /** A first '-' that is neither at the front nor behind the first '.' ends a launcher prefix. */
  function ChopLauncher(name: string): string {
    var dash := IndexOf(name, SEPARATOR);
    if dash > 0 && dash < IndexOf(name, '.') then name[dash + 1..] else name
  }

  function UnitNameToServiceName(unitName: string): string {
    if !(APP <= unitName) then ""
    else ChopLauncher(ChopRandom(unitName[IndexOf(unitName, SEPARATOR) + 1..]))
  }

  // ---- The documented forms ----

  /** app-[launcher-]ID, with "" for no launcher. */
  function Prefixed(launcher: string, id: string): string {
    if launcher == "" then id else launcher + "-" + id
  }

  function ServiceUnit(launcher: string, id: string, random: string): string {
    APP + Prefixed(launcher, id) + "@" + random + ".service"
  }

  function ScopeUnit(launcher: string, id: string, random: string): string {
    APP + Prefixed(launcher, id) + "-" + random + ".scope"
  }

  /** Service units may come without the random part. */
  function PlainServiceUnit(launcher: string, id: string): string {
    APP + Prefixed(launcher, id) + ".service"
  }

  lemma AppIsChopped(rest: string)
    ensures APP <= APP + rest
    ensures IndexOf(APP + rest, SEPARATOR) == 3 && (APP + rest)[4..] == rest
  {
    assert (APP + rest)[..3] == "app";
    FirstIndex(APP + rest, SEPARATOR, 3);
  }

  /** Whatever is appended behind the last '@', as long as it has no '@' itself, is chopped off again. */
  lemma ServiceIsChopped(name: string, tail: string)
    requires '@' !in tail
    ensures ChopRandom(name + "@" + tail) == name
  {
    var all := name + "@" + tail;
    assert all[|name| + 1..] == tail;
    LastIndex(all, '@', |name|);
  }

  lemma ScopeIsChopped(name: string, tail: string)
    requires '@' !in name && '@' !in tail && SEPARATOR !in tail
    ensures ChopRandom(name + "-" + tail) == name
  {
    var all := name + "-" + tail;
    assert '@' !in all;
    assert all[|name| + 1..] == tail;
    LastIndex(all, SEPARATOR, |name|);
  }

  /** Is a lone desktop id read as launcher and id? */
  predicate LooksLaunched(id: string) {
    0 < IndexOf(id, SEPARATOR) < IndexOf(id, '.')
  }

  lemma BareId(id: string)
    ensures ChopLauncher(id) == id <==> !LooksLaunched(id)
  {
  }

  /** Where '-' and '.' first are in launcher-id. */
  lemma LaunchedIndices(launcher: string, id: string)
    ensures var all := launcher + "-" + id;
            && IndexOf(all, SEPARATOR) == (if SEPARATOR in launcher then IndexOf(launcher, SEPARATOR) else |launcher|)
            && IndexOf(all, '.') == (if '.' in launcher then IndexOf(launcher, '.')
                                     else if '.' in id then |launcher| + 1 + IndexOf(id, '.') else -1)
            && all[|launcher| + 1..] == id
  {
    var all := launcher + "-" + id;
    assert all == launcher + ("-" + id);
    if SEPARATOR in launcher {
      IndexInFirst(launcher, "-" + id, SEPARATOR);
    } else {
      IndexInSecond(launcher, "-" + id, SEPARATOR);
    }
    if '.' in launcher {
      IndexInFirst(launcher, "-" + id, '.');
    } else {
      IndexInSecond(launcher, "-" + id, '.');
      IndexInSecond("-", id, '.');
    }
  }

  /** A launcher prefix is taken off exactly when it has no '-' and no '.' and the id has a '.'. */
  lemma LaunchedId(launcher: string, id: string)
    requires launcher != ""
    ensures ChopLauncher(launcher + "-" + id) == id
       <==> SEPARATOR !in launcher && '.' !in launcher && '.' in id
  {
    LaunchedIndices(launcher, id);
    var chopped := ChopLauncher(launcher + "-" + id);
    assert SEPARATOR in launcher ==> |chopped| > |id|;
  }

  /** When a name of the documented form gives its id back. */
  predicate Recoverable(launcher: string, id: string) {
    if launcher == "" then !LooksLaunched(id)
    else SEPARATOR !in launcher && '.' !in launcher && '.' in id
  }

  lemma PrefixedRoundTrips(launcher: string, id: string)
    ensures ChopLauncher(Prefixed(launcher, id)) == id <==> Recoverable(launcher, id)
  {
    if launcher == "" {
      BareId(id);
    } else {
      LaunchedId(launcher, id);
    }
  }

  /** Service units with a random part: the id may even contain '@'. */
  lemma ServiceRoundTrips(launcher: string, id: string, random: string)
    requires '@' !in random
    ensures UnitNameToServiceName(ServiceUnit(launcher, id, random)) == id <==> Recoverable(launcher, id)
  {
    var name, tail := Prefixed(launcher, id), random + ".service";
    assert ServiceUnit(launcher, id, random) == APP + (name + "@" + tail);
    AppIsChopped(name + "@" + tail);
    assert '@' !in tail;
    ServiceIsChopped(name, tail);
    PrefixedRoundTrips(launcher, id);
  }

  lemma ScopeRoundTrips(launcher: string, id: string, random: string)
    requires '@' !in launcher && '@' !in id && '@' !in random && SEPARATOR !in random
    ensures UnitNameToServiceName(ScopeUnit(launcher, id, random)) == id <==> Recoverable(launcher, id)
  {
    var name, tail := Prefixed(launcher, id), random + ".scope";
    assert ScopeUnit(launcher, id, random) == APP + (name + "-" + tail);
    AppIsChopped(name + "-" + tail);
    assert '@' !in tail && SEPARATOR !in tail && '@' !in name;
    ScopeIsChopped(name, tail);
    PrefixedRoundTrips(launcher, id);
  }

  /** A service unit without the random part does not give a lone id back: the suffix stays on, or too much is cut. */
  lemma PlainServiceNeverRoundTrips(id: string)
    ensures UnitNameToServiceName(PlainServiceUnit("", id)) != id
  {
    var name := id + ".service";
    assert PlainServiceUnit("", id) == APP + name;
    AppIsChopped(name);
    if '@' !in id && SEPARATOR !in id {
      assert '@' !in name && SEPARATOR !in name;
    } else {
      PlainServiceIsCut(id);
      ChopLauncherIsSuffix(ChopRandom(name));
    }
  }

  lemma ChopLauncherIsSuffix(name: string)
    ensures |ChopLauncher(name)| <= |name|
  {
  }

  lemma PlainServiceIsCut(id: string)
    requires '@' in id || SEPARATOR in id
    ensures |ChopRandom(id + ".service")| < |id|
  {
    var name := id + ".service";
    assert forall i :: |id| <= i < |name| ==> name[i] != '@' && name[i] != SEPARATOR;
    assert forall i :: 0 <= i < |id| ==> name[i] == id[i];
    assert '@' in name || SEPARATOR in name by {
      var i :| 0 <= i < |id| && (id[i] == '@' || id[i] == SEPARATOR);
      assert name[i] == id[i];
    }
  }

  /** A unit of another kind has no application id. */
  lemma OnlyApps(unitName: string)
    ensures !(exists rest :: unitName == "app-" + rest) ==> UnitNameToServiceName(unitName) == ""
  {
    if APP <= unitName {
      assert unitName == "app-" + unitName[4..];
    }
  }

  predicate LaunchedForm(id: string, launcher: string, rest: string) {
    id == launcher + "-" + rest && launcher != "" && '-' !in launcher && '.' !in launcher && '.' in rest
  }

  lemma FormLooksLaunched(id: string, launcher: string, rest: string)
    requires LaunchedForm(id, launcher, rest)
    ensures LooksLaunched(id)
  {
    LaunchedIndices(launcher, rest);
  }

  lemma LaunchedHasForm(id: string)
    requires LooksLaunched(id)
    ensures exists launcher, rest :: LaunchedForm(id, launcher, rest)
  {
    var d, dot := IndexOf(id, SEPARATOR), IndexOf(id, '.');
    var launcher, rest := id[..d], id[d + 1..];
    assert id == launcher + "-" + rest;
    assert launcher == id[..dot][..d];
    assert rest[dot - d - 1] == '.';
    assert LaunchedForm(id, launcher, rest);
  }

  /** A name looks launched if a '-' with something in front of it comes first, and a '.' behind it. */
  lemma LaunchedExactly(id: string)
    ensures LooksLaunched(id) <==> exists launcher, rest :: LaunchedForm(id, launcher, rest)
  {
    if LooksLaunched(id) {
      LaunchedHasForm(id);
    }
    if exists launcher, rest :: LaunchedForm(id, launcher, rest) {
      var launcher, rest :| LaunchedForm(id, launcher, rest);
      FormLooksLaunched(id, launcher, rest);
    }
  }
}
