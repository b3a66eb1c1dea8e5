/** TftpPacketOptions.cs: the RFC 2347 options of a TFTP packet, a dictionary from the
    lower-cased option name to its text.

    `OptionMap` is the dictionary as a value: the names in enumeration order (the order
    they were first added, as nothing is ever removed) and the values. Its member
    functions are the lookups; the class `TftpPacketOptions` holds one and its Add
    methods replace it. */
module TftpOptions {
  import opened Wrappers
  import opened Wire

  datatype OptionMap = OptionMap(names: seq<string>, values: map<string, string>) {
    /** The names are distinct, lower case, and exactly the keys. */
    ghost predicate Valid() {
      && (forall i, j | 0 <= i < j < |names| :: names[i] != names[j])
      && (forall name :: name in values <==> name in names)
      && (forall i | 0 <= i < |names| :: IsLower(names[i]))
    }

    /** Add(name, value): stored under the lower-cased name; a name seen before keeps its
        place in the enumeration order. */
    function Add(name: string, value: string): OptionMap {
      var key := ToLower(name);
      OptionMap(if key in values then names else names + [key], values[key := value])
    }

    /** Add(name, Int32 value): the decimal text of the number. */
    function AddNumber(name: string, value: int32): OptionMap {
      Add(name, IntText(value))
    }

    function Exists(name: string): bool {
      ToLower(name) in values
    }

    function GetString(name: string, default: Option<string>): Option<string> {
      var key := ToLower(name);
      if key in values then Some(values[key]) else default
    }

    /** GetNumber: Int32.TryParse of the stored text, or the default when the name is
        missing or its text is not a number. */
    function GetNumber(name: string, default: int32): int32 {
      match GetString(name, None)
      case None => default
      case Some(text) =>
        match ParseInt32(text)
        case Some(v) => v
        case None => default
    }

    function GetNames(): seq<string> {
      names
    }
  }

  const Empty := OptionMap([], map[])

  lemma EmptyValid()
    ensures Empty.Valid()
  {
  }

  /** Add keeps the dictionary well formed. */
  lemma AddValid(t: OptionMap, name: string, value: string)
    requires t.Valid()
    ensures t.Add(name, value).Valid()
  {
    ToLowerIsLower(name);
  }

  /** After an Add, a lookup of a name equal to it up to case yields the new value, and
      every other lookup is as before. */
  lemma AddThenGet(t: OptionMap, name: string, value: string, other: string, default: Option<string>)
    ensures t.Add(name, value).GetString(other, default)
         == if ToLower(other) == ToLower(name) then Some(value) else t.GetString(other, default)
    ensures t.Add(name, value).Exists(other) <==> ToLower(other) == ToLower(name) || t.Exists(other)
  {
  }

  /** A second Add of the same name in another case overwrites the first and adds no
      name. */
  lemma AddOverwrites(t: OptionMap, name: string, first: string, same: string, second: string)
    requires t.Valid() && ToLower(same) == ToLower(name)
    ensures t.Add(name, first).Add(same, second).GetString(name, None) == Some(second)
    ensures t.Add(name, first).Add(same, second).GetNames() == t.Add(name, first).GetNames()
  {
  }

  /** Lookups ignore case. */
  lemma LookupIgnoresCase(t: OptionMap, name: string, default: Option<string>, number: int32)
    ensures t.Exists(name) == t.Exists(ToLower(name))
    ensures t.GetString(name, default) == t.GetString(ToLower(name), default)
    ensures t.GetNumber(name, number) == t.GetNumber(ToLower(name), number)
  {
    ToLowerIsLower(name);
  }

  /** A missing name gives the defaults. */
  lemma MissingGivesDefault(t: OptionMap, name: string, default: Option<string>, number: int32)
    requires !t.Exists(name)
    ensures t.GetString(name, default) == default && t.GetNumber(name, number) == number
  {
  }

  /** A number stored with Add(name, Int32) reads back with GetNumber. */
  lemma AddNumberGetNumber(t: OptionMap, name: string, value: int32, default: int32)
    ensures t.AddNumber(name, value).GetNumber(name, default) == value
  {
    ParseIntText(value);
  }

  /** Text that Int32.TryParse rejects reads back as the default. */
  lemma AddTextGetNumber(t: OptionMap, name: string, text: string, default: int32)
    requires ParseInt32(text).None?
    ensures t.Add(name, text).GetNumber(name, default) == default
  {
  }

  /** GetNames lists each stored lower-case name once: a lower-case name is listed
      exactly when it exists. */
  lemma GetNamesExact(t: OptionMap, name: string)
    requires t.Valid() && IsLower(name)
    ensures name in t.GetNames() <==> t.Exists(name)
  {
    ToLowerOfLower(name);
  }

  class TftpPacketOptions {
    var table: OptionMap

    ghost predicate Valid()
      reads this
    {
      table.Valid()
    }

    constructor ()
      ensures Valid() && table == Empty
    {
      table := Empty;
    }

    method Add(name: string, value: string)
      requires Valid()
      modifies this
      ensures Valid() && table == old(table).Add(name, value)
    {
      AddValid(table, name, value);
      table := table.Add(name, value);
    }

    method AddNumber(name: string, value: int32)
      requires Valid()
      modifies this
      ensures Valid() && table == old(table).AddNumber(name, value)
    {
      Add(name, IntText(value));
    }
  }
}
