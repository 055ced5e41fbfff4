/** The field rules of `DescriptionForm`, `TagForm` and `CommentForm`. */
module FormsMain {
  import opened Text
  import opened Validators

  predicate DescriptionValid(description: string)
  {
    FieldValid([Optional, Length(0, 500)], description)
  }

  predicate TagValid(tag: string)
  {
    FieldValid([Optional, Length(0, 64)], tag)
  }

  predicate CommentValid(comment: string)
  {
    FieldValid([DataRequired, Length(1, 128)], comment)
  }

  /** A description is blank or at most 500 characters; blank includes
      whitespace of any length, which `Optional()` lets through. */
  lemma DescriptionRule(description: string)
    ensures DescriptionValid(description) <==> Blank(description) || |description| <= 500
  {
    OptionalChain1(Length(0, 500), description);
  }

  /** The tag input is blank or at most 64 characters in all; in particular
      the empty input validates. */
  lemma TagRule(tag: string)
    ensures TagValid(tag) <==> Blank(tag) || |tag| <= 64
    ensures TagValid("")
  {
    OptionalChain1(Length(0, 64), tag);
    OptionalChain1(Length(0, 64), "");
  }

  /** A comment is 1 to 128 characters and not all whitespace. */
  lemma CommentRule(comment: string)
    ensures CommentValid(comment) <==> 1 <= |comment| <= 128 && !Blank(comment)
  {
    Chain2(DataRequired, Length(1, 128), comment);
  }
}
