/** The component tags and the two kinds of data-quality error a conversion reports. */
module Errors {

  /** Which stage of the encoding an error comes from. */
  datatype SemverComponent = SemverInt | Major | Minor | Patch | Prerelease | PrereleaseComponent {

    /** The enum's string value. */
    function Tag(): string {
      match this
      case SemverInt => "semverint"
      case Major => "major"
      case Minor => "minor"
      case Patch => "patch"
      case Prerelease => "prerelease"
      case PrereleaseComponent => "prereleaseNumericComponent"
    }
  }

  /** `OverflowError | PrecisionLossError`: each keeps its component tag and the offending string. */
  datatype SemverIntError =
    | OverflowError(componentName: SemverComponent, strNum: string)
    | PrecisionLossError(componentName: SemverComponent, strNum: string)
  {

    /** The `name` each error class sets in its constructor. */
    function Name(): string {
      if OverflowError? then "OverflowError" else "PrecisionLossError"
    }

    /** The part of the message between the tag and the offending string. */
    function Kind(): string {
      if OverflowError? then " overflow of " else " precision loss of "
    }

    function Message(): string {
      componentName.Tag() + Kind() + strNum
    }
  }

  /** The six tags have six different string values. */
  lemma {:induction false} TagInjective(a: SemverComponent, b: SemverComponent)
    ensures a.Tag() == b.Tag() ==> a == b
  {
  }

  /** The two class names tell the two kinds of error apart. */
  lemma {:induction false} NameDistinguishesKinds(e1: SemverIntError, e2: SemverIntError)
    ensures e1.Name() == e2.Name() <==> e1.OverflowError? == e2.OverflowError?
  {
  }

  lemma {:induction false} PrefixOfConcat(p: string, q: string, rest: string)
    requires |p| <= |q| + |rest|
    ensures (q + rest)[..|p|] == p ==> (|p| <= |q| ==> q[..|p|] == p)
  {
    if |p| <= |q| {
      assert (q + rest)[..|p|] == q[..|p|];
    }
  }

  /** The message names the tag, the kind and the string, so it determines the error. */
  lemma {:induction false} MessageInjective(e1: SemverIntError, e2: SemverIntError)
    requires e1.Message() == e2.Message()
    ensures e1 == e2
  {
    var p1 := e1.componentName.Tag() + e1.Kind();
    var p2 := e2.componentName.Tag() + e2.Kind();
    var m := e1.Message();
    assert m == p1 + e1.strNum && m == p2 + e2.strNum;
    if p1 == p2 {
      assert e1.strNum == m[|p1|..] == e2.strNum;
      TagKindDetermined(e1, e2);
    } else {
      // one of the two prefixes is a prefix of the other, which never happens for distinct ones
      if |p1| <= |p2| {
        assert m[..|p1|] == p1;
        PrefixOfConcat(p1, p2, e2.strNum);
        PrefixFree(e1, e2);
      } else {
        assert m[..|p2|] == p2;
        PrefixOfConcat(p2, p1, e1.strNum);
        PrefixFree(e2, e1);
      }
    }
  }

  lemma {:induction false} TagKindDetermined(e1: SemverIntError, e2: SemverIntError)
    requires e1.componentName.Tag() + e1.Kind() == e2.componentName.Tag() + e2.Kind()
    requires e1.strNum == e2.strNum
    ensures e1 == e2
  {
    PrefixFree(e1, e2);
  }

  /** No tag-and-kind prefix of a message is a proper prefix of another. */
  lemma {:induction false} PrefixFree(e1: SemverIntError, e2: SemverIntError)
    requires |e1.componentName.Tag() + e1.Kind()| <= |e2.componentName.Tag() + e2.Kind()|
    requires (e2.componentName.Tag() + e2.Kind())[..|e1.componentName.Tag() + e1.Kind()|]
          == e1.componentName.Tag() + e1.Kind()
    ensures e1.componentName == e2.componentName && e1.OverflowError? == e2.OverflowError?
  {
    var p1, p2 := e1.componentName.Tag() + e1.Kind(), e2.componentName.Tag() + e2.Kind();
    Signature(e1);
    Signature(e2);
    assert p1[0] == p2[0] && p1[1] == p2[1] && p1[10] == p2[10];
    assert Initials(e1.componentName) == Initials(e2.componentName);
    assert e1.componentName == e2.componentName;
    assert p1[|e1.componentName.Tag()| + 1] == p2[|e1.componentName.Tag()| + 1];
  }

  /** The first two characters of a tag, which tell the tags apart up to the two prerelease ones. */
  function Initials(c: SemverComponent): (char, char) {
    match c
    case SemverInt => ('s', 'e')
    case Major => ('m', 'a')
    case Minor => ('m', 'i')
    case Patch => ('p', 'a')
    case Prerelease => ('p', 'r')
    case PrereleaseComponent => ('p', 'r')
  }

  /** Where a tag-and-kind prefix shows its tag and its kind. */
  lemma {:induction false} Signature(e: SemverIntError)
    ensures var t := e.componentName.Tag();
      var p := t + e.Kind();
      && |p| >= 18 && |t| + 1 < |p|
      && (p[0], p[1]) == Initials(e.componentName)
      && (e.componentName == Prerelease ==> p[10] == ' ')
      && (e.componentName == PrereleaseComponent ==> p[10] == 'N')
      && p[|t| + 1] == (if e.OverflowError? then 'o' else 'p')
  {
    TagChars(e.componentName);
    KindChars(e);
  }

  lemma {:induction false} TagChars(c: SemverComponent)
    ensures |c.Tag()| >= 5 && (c.Tag()[0], c.Tag()[1]) == Initials(c)
    ensures c == Prerelease ==> |c.Tag()| == 10
    ensures c == PrereleaseComponent ==> |c.Tag()| > 10 && c.Tag()[10] == 'N'
  {
    match c
    case SemverInt =>
    case Major =>
    case Minor =>
    case Patch =>
    case Prerelease =>
    case PrereleaseComponent =>
  }

  lemma {:induction false} KindChars(e: SemverIntError)
    ensures |e.Kind()| >= 13 && e.Kind()[0] == ' ' && e.Kind()[1] == (if e.OverflowError? then 'o' else 'p')
  {
  }
}
