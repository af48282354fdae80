/** The Functionality entity: a named operation paired with the authority
    allowed to invoke it. */
module Domain {
  import opened Wrappers
  import Text

  /** A role, identified by its name. */
  datatype Authority = Authority(name: string)

  /** The mutable entity. Every field may be null (`None`) while the object
      lives in memory; a stored row needs a name and an authority. */
  class Functionality {
    var id: Option<int>
    var name: Option<string>
    var authority: Option<Authority>

    constructor ()
      ensures id == None && name == None && authority == None
    {
      id, name, authority := None, None, None;
    }

    method SetId(x: Option<int>)
      modifies this
      ensures id == x && name == old(name) && authority == old(authority)
    {
      id := x;
    }

    method SetName(x: Option<string>)
      modifies this
      ensures name == x && id == old(id) && authority == old(authority)
    {
      name := x;
    }

    method SetAuthority(x: Option<Authority>)
      modifies this
      ensures authority == x && id == old(id) && name == old(name)
    {
      authority := x;
    }

    /** The fluent `name(x)`: sets the name and hands back the same object. */
    method WithName(x: Option<string>) returns (self: Functionality)
      modifies this
      ensures self == this
      ensures name == x && id == old(id) && authority == old(authority)
    {
      name := x;
      self := this;
    }

    /** The fluent `authority(x)`: sets the authority and hands back the same
        object. */
    method WithAuthority(x: Option<Authority>) returns (self: Functionality)
      modifies this
      ensures self == this
      ensures authority == x && id == old(id) && name == old(name)
    {
      authority := x;
      self := this;
    }

    /** Entity equality: the same object, or another Functionality carrying
        the same non-null id. */
    predicate Equals(o: object?)
      reads this, o
      ensures this == o ==> Equals(o)
      ensures !(o is Functionality) ==> !Equals(o)
      ensures o is Functionality && this != o ==>
        (Equals(o) <==> id.Some? && id == (o as Functionality).id)
    {
      if this == o then true
      else if !(o is Functionality) then false
      else id.Some? && id == (o as Functionality).id
    }

    /** The same hash for every entity, whatever its fields. */
    function HashCode(): (h: int)
      ensures h == 31
    {
      31
    }

    /** The text `Functionality{id=<id>, name='<name>'}`. */
    function ToString(): (s: string)
      reads this
      ensures ParseDescribe(s) == Some((id, NameText(name)))
    {
      DescribeRoundTrip(id, name);
      Describe(id, name)
    }
  }

  /** Equality between two entities is symmetric. */
  lemma EqualsSymmetric(a: Functionality, b: Functionality)
    ensures a.Equals(b) <==> b.Equals(a)
  {
  }

  /** Equality between entities is transitive. */
  lemma EqualsTransitive(a: Functionality, b: Functionality, c: Functionality)
    requires a.Equals(b) && b.Equals(c)
    ensures a.Equals(c)
  {
  }

  /** Equal entities have equal hash codes. */
  lemma HashCodeAgreesWithEquals(a: Functionality, b: Functionality)
    ensures a.Equals(b) ==> a.HashCode() == b.HashCode()
  {
  }

  /** The equality scenario of the entity's unit test: two entities with id 1
      are equal; with ids 1 and 2 they are not; once the first id is null
      they are not equal either. */
  method EqualsScenario() returns (sameId: bool, differentIds: bool, nullAndSet: bool)
    ensures sameId && !differentIds && !nullAndSet
  {
    var f1 := new Functionality();
    f1.SetId(Some(1));
    var f2 := new Functionality();
    f2.SetId(f1.id);
    sameId := f1.Equals(f2);
    f2.SetId(Some(2));
    differentIds := f1.Equals(f2);
    f1.SetId(None);
    nullAndSet := f1.Equals(f2);
  }

  /** Java's string conversion of a nullable Long. */
  function IdText(id: Option<int>): string
  {
    match id
    case None => "null"
    case Some(i) => Text.LongToString(i)
  }

  /** Java's string conversion of a nullable String. */
  function NameText(name: Option<string>): string
  {
    match name
    case None => "null"
    case Some(n) => n
  }

  function Describe(id: Option<int>, name: Option<string>): string
  {
    "Functionality{id=" + IdText(id) + ", name='" + NameText(name) + "'}"
  }

  const DescribePrefix: string := "Functionality{id="
  const NameSeparator: string := ", name='"

  /** The text up to (not including) the first comma of `s`. */
  function UpToComma(s: string): (r: string)
    ensures |r| <= |s| && r == s[..|r|]
    ensures forall k :: 0 <= k < |r| ==> r[k] != ','
  {
    if s == [] || s[0] == ',' then [] else [s[0]] + UpToComma(s[1..])
  }

  /** Reads a rendered id back: "null" or a Long. */
  function IdOfText(t: string): Option<Option<int>>
  {
    if t == "null" then Some(None)
    else match Text.ParseLong(t)
      case None => None
      case Some(i) => Some(Some(i))
  }

  /** Reads the id and the name text back out of a `Describe` text. */
  function ParseDescribe(s: string): Option<(Option<int>, string)>
  {
    if |s| < |DescribePrefix| || s[..|DescribePrefix|] != DescribePrefix then None
    else
      var rest := s[|DescribePrefix|..];
      var idText := UpToComma(rest);
      var tail := rest[|idText|..];
      if |tail| < |NameSeparator| + 2 || tail[..|NameSeparator|] != NameSeparator then None
      else match IdOfText(idText)
        case None => None
        case Some(id) => Some((id, tail[|NameSeparator|..|tail| - 2]))
  }

  /** UpToComma stops exactly at the end of a comma-free prefix. */
  lemma {:induction false} UpToCommaOfPrefix(t: string, u: string)
    requires forall k :: 0 <= k < |t| ==> t[k] != ','
    requires |u| > 0 && u[0] == ','
    ensures UpToComma(t + u) == t
  {
    if t != [] {
      assert (t + u)[1..] == t[1..] + u;
      UpToCommaOfPrefix(t[1..], u);
    }
  }

  /** The rendered id contains no comma and reads back to the id. */
  lemma IdTextRoundTrip(id: Option<int>)
    ensures forall k :: 0 <= k < |IdText(id)| ==> IdText(id)[k] != ','
    ensures IdOfText(IdText(id)) == Some(id)
  {
    match id
    case None =>
    case Some(i) =>
      Text.LongToStringRoundTrip(i);
      if i < 0 {
        Text.DigitsRoundTrip(-i);
        assert IdText(id) == "-" + Text.Digits(-i);
      } else {
        Text.DigitsRoundTrip(i);
        assert Text.IsDigit(IdText(id)[0]);
      }
  }

  /** The layout of a `Describe` text: splitting it at the first comma after
      the prefix gives back the id text and the name text. */
  lemma ParseDescribeLayout(idText: string, nameText: string)
    requires forall k :: 0 <= k < |idText| ==> idText[k] != ','
    ensures ParseDescribe(DescribePrefix + idText + NameSeparator + nameText + "'}") ==
      match IdOfText(idText)
      case None => None
      case Some(id) => Some((id, nameText))
  {
    var tail := NameSeparator + nameText + "'}";
    var s := DescribePrefix + idText + NameSeparator + nameText + "'}";
    assert s == DescribePrefix + (idText + tail);
    assert s[..|DescribePrefix|] == DescribePrefix;
    assert s[|DescribePrefix|..] == idText + tail;
    UpToCommaOfPrefix(idText, tail);
    assert (idText + tail)[|idText|..] == tail;
    assert tail[..|NameSeparator|] == NameSeparator;
    assert tail[|NameSeparator|..|tail| - 2] == nameText;
  }

  /** toString keeps the id exactly and the name as Java prints it: the text
      can be read back into both. */
  lemma DescribeRoundTrip(id: Option<int>, name: Option<string>)
    ensures ParseDescribe(Describe(id, name)) == Some((id, NameText(name)))
  {
    IdTextRoundTrip(id);
    ParseDescribeLayout(IdText(id), NameText(name));
  }

  /** A null name and the name "null" render alike. */
  lemma DescribeConflatesNullName(id: Option<int>)
    ensures Describe(id, None) == Describe(id, Some("null"))
  {
  }
}
