/** `AppDbContext`: the `Feedbacks` table, in store order. */
module Data {
  import opened Feedback

  class AppDbContext {
    /** `Feedbacks`, the rows in the order the listing enumerates them. */
    var feedbacks: seq<FeedBack>

    ghost predicate Valid()
      reads this
    {
      UniqueIds(feedbacks)
    }

    /** A context over a table that already holds `rows`. */
    constructor (rows: seq<FeedBack>)
      requires UniqueIds(rows)
      ensures Valid() && feedbacks == rows
    {
      feedbacks := rows;
    }
  }
}

/** `FeedBackService`: listing, lookup, creation and deletion of feedback records. */
module FeedBackService {
  import opened Common
  import opened Feedback
  import opened Data

  /** What `GetByIdAsync` produces: the record, or a thrown `KeyNotFoundException`. */
  datatype Lookup = Found(feedback: FeedBack) | KeyNotFound

  /** `CreateAsync`: the record gets the fresh Guid `newId` and is added once. */
  method CreateAsync(context: AppDbContext, feedback: FeedBack, newId: Guid) returns (created: FeedBack)
    requires context.Valid()
    requires FindById(context.feedbacks, newId).None?
    modifies context
    ensures context.Valid()
    ensures created == feedback.(id := newId)
    ensures context.feedbacks == old(context.feedbacks) + [created]
  {
    created := feedback.(id := newId);
    AppendFreshKeepsUniqueIds(context.feedbacks, created);
    context.feedbacks := context.feedbacks + [created];
  }

  /** `DeleteAsync`: false and no change for a missing id; otherwise that record is removed. */
  method DeleteAsync(context: AppDbContext, id: Guid) returns (deleted: bool)
    requires context.Valid()
    modifies context
    ensures context.Valid()
    ensures deleted <==> FindById(old(context.feedbacks), id).Some?
    ensures !deleted ==> context.feedbacks == old(context.feedbacks)
    ensures deleted ==> context.feedbacks == RemoveById(old(context.feedbacks), id)
    ensures deleted ==> multiset(context.feedbacks)
                        == multiset(old(context.feedbacks)) - multiset{FindById(old(context.feedbacks), id).value}
  {
    var feedback := FindById(context.feedbacks, id);
    if feedback.None? {
      return false;
    }
    RemoveExactlyOne(context.feedbacks, id);
    context.feedbacks := RemoveById(context.feedbacks, id);
    return true;
  }

  /** `GetAllAsync`: the filtered records, one page of them. */
  method GetAllAsync(context: AppDbContext, rating: Option<Int32>, email: Option<string>,
                     page: Int32, pageSize: Int32) returns (list: seq<FeedBack>)
    ensures list == PageAsWritten(Filtered(context.feedbacks, rating, email), page, pageSize)
    ensures page > Int32Min && Int32Min <= (page - 1) * pageSize <= Int32Max ==>
              list == Page(Filtered(context.feedbacks, rating, email), page, pageSize)
    ensures forall f :: f in list ==> f in context.feedbacks && Matches(f, rating, email)
    ensures |list| <= if pageSize > 0 then pageSize else 0
  {
    var query := context.feedbacks;
    if rating.Some? {
      query := Where(query, HasRating(rating.value));
    }
    if email.Some? && email.value != "" {
      query := Where(query, EmailContains(email.value));
    }
    list := PageAsWritten(query, page, pageSize);
    if page > Int32Min && Int32Min <= (page - 1) * pageSize <= Int32Max {
      PageAsWrittenAgrees(query, page, pageSize);
    }
  }

  /** `GetByIdAsync`: the stored record, or `KeyNotFoundException`; never null. */
  method GetByIdAsync(context: AppDbContext, id: Guid) returns (result: Lookup)
    ensures result.KeyNotFound? <==> forall f | f in context.feedbacks :: f.id != id
    ensures result.Found? ==> result.feedback in context.feedbacks && result.feedback.id == id
  {
    var feedback := FindById(context.feedbacks, id);
    if feedback.None? {
      return KeyNotFound;
    }
    return Found(feedback.value);
  }
}

/** `FeedBackController`: the HTTP actions over the same table, with their result kinds. */
module FeedBackController {
  import opened Common
  import opened Feedback
  import opened Data

  /** The body of the listing response. */
  datatype FeedbackPage = FeedbackPage(
    totalItems: nat,
    totalPages: Option<int>,
    pageNumber: Int32,
    pageSize: Int32,
    feedbacks: seq<FeedBack>)

  /** The `IActionResult`s the actions return. */
  datatype ActionResult =
    | OkPage(page: FeedbackPage)            // Ok(new { TotalItems, ... })
    | Ok(feedback: FeedBack)                // Ok(feedback)
    | NotFound                              // NotFound($"Feedback with ID {id} not found.")
    | NoContent                             // NoContent()
    | BadRequestNull                        // BadRequest("Feedback cannot be null.")
    | BadRequestModelState                  // BadRequest(ModelState)
    | CreatedAtAction(created: FeedBack)    // CreatedAtAction(nameof(GetFeedbackById), ...)

  /**
   * `GetAllFeedback`: the count of filtered records, the page count, the
   * echoed paging arguments (1 and 10 by default) and the requested page.
   */
  method GetAllFeedback(context: AppDbContext, rating: Option<Int32> := None, email: Option<string> := None,
                        pageNumber: Int32 := 1, pageSize: Int32 := 10) returns (result: ActionResult)
    ensures result.OkPage?
    ensures var query := Filtered(context.feedbacks, rating, email);
            && result.page.totalItems == |query|
            && result.page.totalPages == TotalPages(|query|, pageSize)
            && result.page.pageNumber == pageNumber
            && result.page.pageSize == pageSize
            && result.page.feedbacks == PageAsWritten(query, pageNumber, pageSize)
            && (pageNumber > Int32Min && Int32Min <= (pageNumber - 1) * pageSize <= Int32Max ==>
                  result.page.feedbacks == Page(query, pageNumber, pageSize))
    ensures forall f :: f in result.page.feedbacks ==> f in context.feedbacks && Matches(f, rating, email)
  {
    var query := context.feedbacks;
    if rating.Some? {
      query := Where(query, HasRating(rating.value));
    }
    if email.Some? && email.value != "" {
      query := Where(query, EmailContains(email.value));
    }
    var totalItems := |query|;
    var totalPages := TotalPages(totalItems, pageSize);
    var feedbacks := PageAsWritten(query, pageNumber, pageSize);
    if pageNumber > Int32Min && Int32Min <= (pageNumber - 1) * pageSize <= Int32Max {
      PageAsWrittenAgrees(query, pageNumber, pageSize);
    }
    return OkPage(FeedbackPage(totalItems, totalPages, pageNumber, pageSize, feedbacks));
  }

  /** `GetFeedbackById`: NotFound for a missing id, otherwise Ok with the stored record. */
  method GetFeedbackById(context: AppDbContext, id: Guid) returns (result: ActionResult)
    ensures result.NotFound? || result.Ok?
    ensures result.NotFound? <==> forall f | f in context.feedbacks :: f.id != id
    ensures result.Ok? ==> result.feedback in context.feedbacks && result.feedback.id == id
  {
    var feedback := FindById(context.feedbacks, id);
    if feedback.None? {
      return NotFound;
    }
    return Ok(feedback.value);
  }

  /** `DeleteFeedback`: NotFound and no change for a missing id; otherwise that record is removed. */
  method DeleteFeedback(context: AppDbContext, id: Guid) returns (result: ActionResult)
    requires context.Valid()
    modifies context
    ensures context.Valid()
    ensures result.NotFound? || result.NoContent?
    ensures result.NotFound? <==> FindById(old(context.feedbacks), id).None?
    ensures result.NotFound? ==> context.feedbacks == old(context.feedbacks)
    ensures result.NoContent? ==> context.feedbacks == RemoveById(old(context.feedbacks), id)
    ensures result.NoContent? ==> multiset(context.feedbacks)
                                  == multiset(old(context.feedbacks)) - multiset{FindById(old(context.feedbacks), id).value}
  {
    var feedback := FindById(context.feedbacks, id);
    if feedback.None? {
      return NotFound;
    }
    RemoveExactlyOne(context.feedbacks, id);
    context.feedbacks := RemoveById(context.feedbacks, id);
    return NoContent;
  }

  /**
   * `SubmitFeedBack`: a null body or an invalid model state is a BadRequest
   * and changes nothing; otherwise the record gets the fresh Guid `newId`,
   * is added once, and is returned as Created.
   */
  method SubmitFeedBack(context: AppDbContext, feedback: Option<FeedBack>, modelStateIsValid: bool, newId: Guid)
    returns (result: ActionResult)
    requires context.Valid()
    requires FindById(context.feedbacks, newId).None?
    modifies context
    ensures context.Valid()
    ensures feedback.None? ==> result == BadRequestNull && context.feedbacks == old(context.feedbacks)
    ensures feedback.Some? && !modelStateIsValid ==>
              result == BadRequestModelState && context.feedbacks == old(context.feedbacks)
    ensures feedback.Some? && modelStateIsValid ==>
              && result == CreatedAtAction(feedback.value.(id := newId))
              && context.feedbacks == old(context.feedbacks) + [feedback.value.(id := newId)]
  {
    if feedback.None? {
      return BadRequestNull;
    }
    if !modelStateIsValid {
      return BadRequestModelState;
    }
    var created := feedback.value.(id := newId);
    AppendFreshKeepsUniqueIds(context.feedbacks, created);
    context.feedbacks := context.feedbacks + [created];
    return CreatedAtAction(created);
  }
}
