/** The reserved `_system` name space of ActorSystem.kt (class NameSpace). */
module NameSpace {

  /** The prefix of the system name space. */
  const SystemPrefix: string := "_system"

  /** `NameSpace.name`: an actor name qualified by the system name space. */
  function Qualify(actorName: string): (r: string)
    ensures |r| == |SystemPrefix| + 1 + |actorName|
    ensures r[..|SystemPrefix|] == SystemPrefix && r[|SystemPrefix|] == '/'
    ensures r[|SystemPrefix| + 1..] == actorName
  {
    SystemPrefix + "/" + actorName
  }

  /** `NameSpace.hasNameSpace`: a plain `startsWith` test, so the separator
      is not part of it. */
  predicate HasNameSpace(actorName: string): (b: bool)
    ensures b <==> exists rest :: actorName == SystemPrefix + rest
  {
    assert SystemPrefix <= actorName ==> actorName == SystemPrefix + actorName[|SystemPrefix|..];
    SystemPrefix <= actorName
  }

  const MainName: string := Qualify("main")
  const DeadLetterName: string := Qualify("deadLetter")
  const AnonymousName: string := Qualify("anonymous")

  /** Every qualified name lies in the reserved name space. */
  lemma QualifiedIsReserved(actorName: string)
    ensures HasNameSpace(Qualify(actorName))
  {
    assert Qualify(actorName)[..|SystemPrefix|] == SystemPrefix;
  }

  /** The check is a prefix test: any name that starts with `_system` is
      reserved, with or without the `/` separator, and a name that does not
      start with it is not. */
  lemma ReservedIffPrefix(actorName: string)
    ensures HasNameSpace(actorName) <==>
            |actorName| >= 7 && actorName[..7] == "_system"
  {
  }

  /** The name used by the tests for the reserved-name rejection. */
  lemma UnderscoreNameIsReserved()
    ensures HasNameSpace("_system____")
    ensures !HasNameSpace("dummy")
  {
  }

  /** The three internal names are distinct and reserved. */
  lemma InternalNames()
    ensures HasNameSpace(MainName) && HasNameSpace(DeadLetterName) && HasNameSpace(AnonymousName)
    ensures MainName != DeadLetterName && MainName != AnonymousName && DeadLetterName != AnonymousName
  {
    QualifiedIsReserved("main");
    QualifiedIsReserved("deadLetter");
    QualifiedIsReserved("anonymous");
    assert MainName[8] == 'm' && DeadLetterName[8] == 'd' && AnonymousName[8] == 'a';
  }

  /** A name that passes the public registration check is never the main
      actor's name. */
  lemma UnreservedIsNotMain(actorName: string)
    requires !HasNameSpace(actorName)
    ensures actorName != MainName
  {
    QualifiedIsReserved("main");
  }
}
