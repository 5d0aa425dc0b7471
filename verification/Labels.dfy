// k8s-client/pod.go, case2create: the "nuage.io/" settings among a pod's labels.
module Labels {
  import opened Base

  const PREFIX := "nuage.io/"

  /** What follows the first occurrence of the prefix in s (strings.SplitAfterN with n = 2). */
  function AfterFirst(s: string): Option<string> {
    if |s| < |PREFIX| then None
    else if s[..|PREFIX|] == PREFIX then Some(s[|PREFIX|..])
    else AfterFirst(s[1..])
  }

  /** The text "nuage.io/" stands in s from position i on. */
  predicate StandsAt(s: string, i: nat) {
    i + 9 <= |s| && s[i..i + 9] == "nuage.io/"
  }

  lemma StandsLater(s: string, i: nat)
    requires s != [] && i > 0
    ensures StandsAt(s, i) <==> StandsAt(s[1..], i - 1)
    ensures i + 9 <= |s| ==> s[i + 9..] == s[1..][i + 8..]
  {
    if i + 9 <= |s| {
      assert s[i..i + 9] == s[1..][i - 1..i + 8];
    }
  }

  /** It yields nothing if the text "nuage.io/" does not occur. */
  lemma {:induction false} AfterNone(s: string)
    requires forall i: nat :: !StandsAt(s, i)
    ensures AfterFirst(s).None?
  {
    if |s| >= 9 {
      assert !StandsAt(s, 0) && s[0..9] == s[..9];
      forall i: nat
        ensures !StandsAt(s[1..], i)
      {
        StandsLater(s, i + 1);
      }
      AfterNone(s[1..]);
    }
  }

  /** Otherwise it yields what follows the first occurrence. */
  lemma {:induction false} AfterFirstIs(s: string, i: nat)
    requires StandsAt(s, i) && forall j: nat :: j < i ==> !StandsAt(s, j)
    ensures AfterFirst(s) == Some(s[i + 9..])
  {
    assert s[0..9] == s[..9];
    if i > 0 {
      assert !StandsAt(s, 0);
      forall j: nat | j < i - 1
        ensures !StandsAt(s[1..], j)
      {
        StandsLater(s, j + 1);
      }
      StandsLater(s, i);
      AfterFirstIs(s[1..], i - 1);
    }
  }

  /** The setting a label is about, if any. */
  function Setting(name: string): Option<string> {
    match AfterFirst(name)
    case None => None
    case Some(key) => if key == "" then None else Some(key)
  }

  /** A label is about the setting after its first "nuage.io/", if that is not empty. */
  lemma SettingIs(before: string, key: string)
    requires forall i: nat :: i < |before| ==> !StandsAt(before + "nuage.io/" + key, i)
    ensures Setting(before + "nuage.io/" + key) == if key == "" then None else Some(key)
  {
    var name := before + "nuage.io/" + key;
    assert name[|before|..|before| + 9] == "nuage.io/" && name[|before| + 9..] == key;
    AfterFirstIs(name, |before|);
  }

  lemma NoSetting(name: string)
    requires forall i: nat :: !StandsAt(name, i)
    ensures Setting(name).None?
  {
    AfterNone(name);
  }

  /** The settings map after visiting the labels in the given order; later ones win. */
  function Settings(labels: map<string, string>, order: seq<string>): map<string, string>
    requires forall l :: l in order ==> l in labels
  {
    if order == [] then map[]
    else
      var before, last := Settings(labels, order[..|order| - 1]), order[|order| - 1];
      match Setting(last)
      case None => before
      case Some(key) => before[key := labels[last]]
  }

  /** An order in which a Go range loop may visit the labels. */
  ghost predicate IsOrder(labels: map<string, string>, order: seq<string>) {
    && (forall l :: l in order <==> l in labels)
    && Distinct(order)
  }

  /** No two labels give the same setting different values. */
  ghost predicate Unambiguous(labels: map<string, string>) {
    forall l, k :: l in labels && k in labels && Setting(l).Some? && Setting(l) == Setting(k) ==> labels[l] == labels[k]
  }

  lemma {:induction false} SettingsAre(labels: map<string, string>, order: seq<string>)
    requires Unambiguous(labels) && forall l :: l in order ==> l in labels
    ensures forall key :: key in Settings(labels, order) <==> exists l :: l in order && Setting(l) == Some(key)
    ensures forall l :: l in order && Setting(l).Some? ==>
              Setting(l).value in Settings(labels, order) && Settings(labels, order)[Setting(l).value] == labels[l]
  {
    if order != [] {
      var init, last := order[..|order| - 1], order[|order| - 1];
      SettingsAre(labels, init);
      assert order == init + [last];
      forall key
        ensures key in Settings(labels, order) <==> exists l :: l in order && Setting(l) == Some(key)
      {
        if key in Settings(labels, init) {
          var l :| l in init && Setting(l) == Some(key);
          assert l in order;
        }
        assert Setting(last) == Some(key) ==> last in order;
      }
    }
  }

  lemma SettingCarriesOver(labels: map<string, string>, o1: seq<string>, o2: seq<string>, key: string)
    requires Unambiguous(labels) && IsOrder(labels, o1) && IsOrder(labels, o2) && key in Settings(labels, o1)
    ensures key in Settings(labels, o2) && Settings(labels, o1)[key] == Settings(labels, o2)[key]
  {
    SettingsAre(labels, o1);
    var l :| l in o1 && Setting(l) == Some(key);
    assert l in o2;
    SettingsAre(labels, o2);
  }

  lemma SameSettings(labels: map<string, string>, o1: seq<string>, o2: seq<string>)
    requires Unambiguous(labels) && IsOrder(labels, o1) && IsOrder(labels, o2)
    ensures Settings(labels, o1) == Settings(labels, o2)
  {
    var s1, s2 := Settings(labels, o1), Settings(labels, o2);
    forall key | key in s1
      ensures key in s2 && s1[key] == s2[key]
    {
      SettingCarriesOver(labels, o1, o2, key);
    }
    forall key | key in s2
      ensures key in s1
    {
      SettingCarriesOver(labels, o2, o1, key);
    }
    assert s1.Keys == s2.Keys;
  }

  lemma Enumerate(s: set<string>) returns (order: seq<string>)
    ensures forall l :: l in order <==> l in s
    ensures Distinct(order)
    decreases s
  {
    if s == {} {
      order := [];
    } else {
      var l :| l in s;
      order := Enumerate(s - {l});
      order := order + [l];
    }
  }

  lemma LastWins(labels: map<string, string>, order: seq<string>, last: string)
    requires forall l :: l in order ==> l in labels
    requires last in labels && Setting(last).Some?
    ensures forall l :: l in order + [last] ==> l in labels
    ensures var s := Settings(labels, order + [last]); Setting(last).value in s && s[Setting(last).value] == labels[last]
  {
    assert (order + [last])[..|order|] == order;
  }

  lemma ConflictShows(labels: map<string, string>, l: string, k: string) returns (o1: seq<string>, o2: seq<string>)
    requires l in labels && k in labels && Setting(l).Some? && Setting(l) == Setting(k) && labels[l] != labels[k]
    ensures IsOrder(labels, o1) && IsOrder(labels, o2) && Settings(labels, o1) != Settings(labels, o2)
  {
    var rest := Enumerate(labels.Keys - {l, k});
    o1, o2 := rest + [k] + [l], rest + [l] + [k];
    AppendDistinct(rest, k);
    AppendDistinct(rest, l);
    AppendDistinct(rest + [k], l);
    AppendDistinct(rest + [l], k);
    LastWins(labels, rest + [k], l);
    LastWins(labels, rest + [l], k);
  }

  /** The settings do not depend on the iteration order exactly when no two labels that
      agree after their first "nuage.io/" carry different values. */
  lemma OrderIrrelevantIff(labels: map<string, string>)
    ensures Unambiguous(labels) <==>
            forall o1, o2 :: IsOrder(labels, o1) && IsOrder(labels, o2) ==> Settings(labels, o1) == Settings(labels, o2)
  {
    if Unambiguous(labels) {
      forall o1, o2 | IsOrder(labels, o1) && IsOrder(labels, o2)
        ensures Settings(labels, o1) == Settings(labels, o2)
      {
        SameSettings(labels, o1, o2);
      }
    } else {
      var l, k :| l in labels && k in labels && Setting(l).Some? && Setting(l) == Setting(k) && labels[l] != labels[k];
      var o1, o2 := ConflictShows(labels, l, k);
    }
  }

  /** The label-parsing loop: the settings for some order of visiting the labels. */
  method ParseLabels(labels: map<string, string>) returns (settings: map<string, string>)
    ensures exists order :: IsOrder(labels, order) && settings == Settings(labels, order)
  {
    settings := map[];
    ghost var order: seq<string> := [];
    var rest := labels.Keys;
    while rest != {}
      invariant rest <= labels.Keys
      invariant forall l :: l in order <==> l in labels && l !in rest
      invariant Distinct(order)
      invariant settings == Settings(labels, order)
      decreases rest
    {
      var name :| name in rest;
      rest := rest - {name};
      match Setting(name) {
        case None =>
        case Some(key) => settings := settings[key := labels[name]];
      }
      assert (order + [name])[..|order|] == order;
      order := order + [name];
    }
    assert IsOrder(labels, order);
  }
}
