/**
 * ConceptName: a name of a dictionary concept in one locale. A mutable
 * record of six nullable fields set through setters, whose equals compares
 * only concept, name and locale and whose hashCode adds the hashes of
 * those three.
 */
module ConceptNames {
  import opened Wrappers
  import opened JavaLang

  /** Concept, User and Date are not part of this model: each stands for the
      value its own equals compares. */
  datatype Concept = Concept(conceptId: int)
  datatype User = User(userId: int)
  datatype Date = Date(millis: int)

  /** Concept.hashCode and String.hashCode, which ConceptName.hashCode adds
      up. As functions of the values they give equal hashes to equal values,
      which is all the hashCode contract asks of them. */
  datatype HashFunctions = HashFunctions(concept: Concept -> int32, text: string -> int32)

  /** The argument of equals(Object): null, a ConceptName, or an object of
      another class. */
  datatype JavaObject = Null | AConceptName(target: ConceptName) | OtherObject {
    function Footprint(): set<object>
    {
      if AConceptName? then {target} else {}
    }
  }

  class ConceptName {
    var concept: Option<Concept>
    var name: Option<string>
    var shortName: Option<string>
    var locale: Option<string>
    var creator: Option<User>
    var dateCreated: Option<Date>

    /** Object.hashCode of this object, chosen by the JVM when the object is
        allocated. */
    const identityHash: int32

    /** The default constructor: every field is null. */
    constructor (identityHash: int32)
      ensures concept == None && name == None && shortName == None
      ensures locale == None && creator == None && dateCreated == None
      ensures this.identityHash == identityHash
    {
      this.identityHash := identityHash;
      concept, name, shortName := None, None, None;
      locale, creator, dateCreated := None, None, None;
    }

    function GetConcept(): Option<Concept>
      reads this
    {
      concept
    }

    function GetName(): Option<string>
      reads this
    {
      name
    }

    function GetShortName(): Option<string>
      reads this
    {
      shortName
    }

    function GetLocale(): Option<string>
      reads this
    {
      locale
    }

    function GetCreator(): Option<User>
      reads this
    {
      creator
    }

    function GetDateCreated(): Option<Date>
      reads this
    {
      dateCreated
    }

    method SetConcept(concept: Option<Concept>)
      modifies this
      ensures GetConcept() == concept
      ensures name == old(name) && shortName == old(shortName) && locale == old(locale)
      ensures creator == old(creator) && dateCreated == old(dateCreated)
    {
      this.concept := concept;
    }

    method SetName(name: Option<string>)
      modifies this
      ensures GetName() == name
      ensures concept == old(concept) && shortName == old(shortName) && locale == old(locale)
      ensures creator == old(creator) && dateCreated == old(dateCreated)
    {
      this.name := name;
    }

    method SetShortName(shortName: Option<string>)
      modifies this
      ensures GetShortName() == shortName
      ensures concept == old(concept) && name == old(name) && locale == old(locale)
      ensures creator == old(creator) && dateCreated == old(dateCreated)
    {
      this.shortName := shortName;
    }

    method SetLocale(locale: Option<string>)
      modifies this
      ensures GetLocale() == locale
      ensures concept == old(concept) && name == old(name) && shortName == old(shortName)
      ensures creator == old(creator) && dateCreated == old(dateCreated)
    {
      this.locale := locale;
    }

    method SetCreator(creator: Option<User>)
      modifies this
      ensures GetCreator() == creator
      ensures concept == old(concept) && name == old(name) && shortName == old(shortName)
      ensures locale == old(locale) && dateCreated == old(dateCreated)
    {
      this.creator := creator;
    }

    method SetDateCreated(dateCreated: Option<Date>)
      modifies this
      ensures GetDateCreated() == dateCreated
      ensures concept == old(concept) && name == old(name) && shortName == old(shortName)
      ensures locale == old(locale) && creator == old(creator)
    {
      this.dateCreated := dateCreated;
    }

    /** The fields that equals compares. */
    function Key(): (Option<Concept>, Option<string>, Option<string>)
      reads this
    {
      (concept, name, locale)
    }

    /** equals compares this object's concept, then its name, then its
        locale, calling equals on each; `&&` stops at the first difference.
        It raises NullPointerException exactly when one of the fields it
        reaches on this object is null. */
    predicate EqualsDefined(obj: JavaObject)
      reads this, obj.Footprint()
    {
      obj.AConceptName? ==>
        concept.Some? &&
        (concept == obj.target.GetConcept() ==>
           name.Some? && (name == obj.target.GetName() ==> locale.Some?))
    }

    /** equals(Object): equality of concept, name and locale with another
        ConceptName; false for null and for objects of other classes. */
    function Equals(obj: JavaObject): (r: bool)
      requires EqualsDefined(obj)
      reads this, obj.Footprint()
      ensures r ==> obj.AConceptName?
      ensures obj.AConceptName? ==> (r <==> Key() == obj.target.Key())
    {
      match obj
      case AConceptName(c) =>
        concept == c.GetConcept() && name == c.GetName() && locale == c.GetLocale()
      case _ => false
    }

    /** hashCode: the identity hash while concept, name or locale is null,
        and otherwise the 32-bit wrapping sum of their three hashes. */
    function HashCode(h: HashFunctions): (r: int32)
      reads this
      ensures concept.None? || name.None? || locale.None? ==> r == identityHash
      ensures concept.Some? && name.Some? && locale.Some? ==>
                r == Wrap32(h.concept(concept.value) + h.text(name.value) + h.text(locale.value))
    {
      if GetConcept().None? || GetName().None? || GetLocale().None? then identityHash
      else
        var c, n, l := h.concept(GetConcept().value), h.text(GetName().value), h.text(GetLocale().value);
        Add32Sum(c, n, l);
        Add32(Add32(c, n), l)
    }
  }

  /** The hashCode contract: ConceptNames that are equal have equal hash
      codes, whatever hash functions Concept and String use. */
  lemma EqualsImpliesEqualHashCode(a: ConceptName, b: ConceptName, h: HashFunctions)
    requires a.EqualsDefined(AConceptName(b))
    requires a.Equals(AConceptName(b))
    ensures a.HashCode(h) == b.HashCode(h)
  {
    assert a.Key() == b.Key();
  }

  /** Only concept, name and locale matter: two arguments that agree on
      those are equal to the same objects, however their short name,
      creator and creation date differ. */
  lemma EqualsIgnoresOtherFields(a: ConceptName, b: ConceptName, c: ConceptName)
    requires b.Key() == c.Key()
    requires a.EqualsDefined(AConceptName(b))
    ensures a.EqualsDefined(AConceptName(c))
    ensures a.Equals(AConceptName(b)) == a.Equals(AConceptName(c))
  {
  }

  /** A ConceptName whose three compared fields are set equals itself. */
  lemma EqualsReflexive(a: ConceptName)
    requires a.concept.Some? && a.name.Some? && a.locale.Some?
    ensures a.EqualsDefined(AConceptName(a)) && a.Equals(AConceptName(a))
  {
  }

  /** Where both directions are defined, equals is symmetric. */
  lemma EqualsSymmetric(a: ConceptName, b: ConceptName)
    requires a.EqualsDefined(AConceptName(b)) && b.EqualsDefined(AConceptName(a))
    ensures a.Equals(AConceptName(b)) == b.Equals(AConceptName(a))
  {
  }

  /** equals is transitive. */
  lemma EqualsTransitive(a: ConceptName, b: ConceptName, c: ConceptName)
    requires a.EqualsDefined(AConceptName(b)) && a.Equals(AConceptName(b))
    requires b.EqualsDefined(AConceptName(c)) && b.Equals(AConceptName(c))
    ensures a.EqualsDefined(AConceptName(c)) && a.Equals(AConceptName(c))
  {
  }

  /** A freshly constructed ConceptName compared with any ConceptName raises
      NullPointerException, while its hashCode is the identity hash. */
  method FreshConceptName(identityHash: int32, other: ConceptName, h: HashFunctions)
    returns (defined: bool, hash: int32)
    ensures !defined
    ensures hash == identityHash
  {
    var created := new ConceptName(identityHash);
    defined := created.EqualsDefined(AConceptName(other));
    hash := created.HashCode(h);
  }

  /** Setting the three compared fields makes two ConceptNames equal, with
      equal hash codes, whatever their other fields hold. */
  method SetKeyFields(a: ConceptName, b: ConceptName, c: Concept, n: string, l: string, h: HashFunctions)
    returns (equal: bool, sameHash: bool)
    modifies a, b
    ensures equal && sameHash
  {
    a.SetConcept(Some(c));
    a.SetName(Some(n));
    a.SetLocale(Some(l));
    b.SetConcept(Some(c));
    b.SetName(Some(n));
    b.SetLocale(Some(l));
    b.SetShortName(Some("different"));
    equal := a.Equals(AConceptName(b));
    sameHash := a.HashCode(h) == b.HashCode(h);
  }
}
