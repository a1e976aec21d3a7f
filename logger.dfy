/** `util/logger.py`: the `logging_level` setting as a numeric level. The
    setting has already been through the coercion of `settings.ini`, so it
    may be an int or a float as well as a string. */
module Logger {
  import opened Settings
  import opened Digits

  /** The five names the setting may take, most severe first. */
  const Names: seq<string> := ["CRITICAL", "ERROR", "WARNING", "INFO", "DEBUG"]

  /** The if/elif chain: an exact, case-sensitive match of a string, and 0
      for anything else, a number included. */
  function Level(setting: Setting): (level: nat)
    ensures level <= 50 && level % 10 == 0
    ensures level != 0 <==> setting.StrValue? && setting.s in Names
  {
    if setting == StrValue("CRITICAL") then 50
    else if setting == StrValue("ERROR") then 40
    else if setting == StrValue("WARNING") then 30
    else if setting == StrValue("INFO") then 20
    else if setting == StrValue("DEBUG") then 10
    else 0
  }

  /** The `i`-th name maps to `10 * (5 - i)`: the levels come down in steps
      of ten, so they are strictly decreasing along the list. */
  lemma LevelsDecrease()
    ensures forall i :: 0 <= i < |Names| ==> Level(StrValue(Names[i])) == 10 * (5 - i)
    ensures forall i, j :: 0 <= i < j < |Names| ==> Level(StrValue(Names[i])) > Level(StrValue(Names[j]))
  {
  }

  /** The match is case-sensitive: lower-case names are not recognised. */
  lemma LowerCaseIsZero()
    ensures Level(StrValue("debug")) == 0 && Level(StrValue("info")) == 0 && Level(StrValue("Critical")) == 0
  {
  }

  /** A level written in `settings.ini` as a number, such as `10`, is read
      as an int and matches no name: the level is 0. */
  lemma NumericLevelIsZero(n: nat)
    ensures Level(Coerce(NatToString(n))) == 0
  {
    CoerceNat(n);
  }

  /** The five names stay strings through the coercion, so each written in
      `settings.ini` gives its level. */
  lemma NamedLevel(name: string)
    requires name in Names
    ensures Level(Coerce(name)) == Level(StrValue(name)) != 0
  {
    NameStaysString(name);
  }

  /** A text that starts with a letter is neither digits nor a decimal. */
  lemma NameStaysString(name: string)
    requires name != [] && 'A' <= name[0] <= 'Z'
    ensures Coerce(name) == StrValue(name)
  {
    assert FirstAt(name, '.') > 0;
    assert ReplaceFirst(name, '.')[0] == name[0];
  }
}
