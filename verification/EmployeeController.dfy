/**
 * The HTTP endpoints: each turns what the service returns into a status
 * code and a body. The list-shaped endpoints always answer 200; the lookup
 * answers 404 for a null record; the delete endpoint compares the
 * service's message, ignoring case, with the three fixed failure messages
 * in turn.
 */
module EmployeeController {
  import opened Wrappers
  import opened Text
  import opened EmployeeModel
  import opened Upstream
  import Service = EmployeeService

  datatype Response<B> = Response(status: int, body: B)

  const OkStatus: int := 200
  const NotFoundStatus: int := 404
  const TooManyRequestsStatus: int := 429
  const InternalServerErrorStatus: int := 500

  /** The body of every delete answered with 200, whatever the upstream said. */
  const DeletedBody: string := "Successfully deleted record"

  /** GET /employees: 200 with the list, which is empty when the upstream failed. */
  function GetAllEmployees(reply: Exchange<seq<Row>>): (r: Response<seq<Employee>>)
    requires Service.ListReplyWellFormed(reply)
    ensures r.status == OkStatus && r.body == Service.GetAllEmployees(reply)
    ensures !Service.Delivers(reply) ==> r.body == []
  {
    Response(OkStatus, Service.GetAllEmployees(reply))
  }

  /** GET /employees/search/{searchString}: 200 with the matches, in list order. */
  function GetEmployeesByNameSearch(searchString: string, reply: Exchange<seq<Row>>): (r: Response<seq<Employee>>)
    requires Service.ListReplyWellFormed(reply)
    ensures r.status == OkStatus && r.body == Service.GetEmployeesByNameSearch(searchString, reply)
    ensures Service.IsSubsequence(r.body, Service.GetAllEmployees(reply))
    ensures !Service.Delivers(reply) ==> r.body == []
  {
    Response(OkStatus, Service.GetEmployeesByNameSearch(searchString, reply))
  }

  /**
   * GET /employee/{id}: 200 with the record, or 404 with a null body. Every
   * reply that does not deliver a record answers 404, a rate limit and an
   * upstream error included.
   */
  function GetEmployeeById(reply: Exchange<Row>): (r: Response<Option<Employee>>)
    requires Service.RecordReplyWellFormed(reply)
    ensures r.status == OkStatus || r.status == NotFoundStatus
    ensures r.status == NotFoundStatus <==> !Service.Delivers(reply)
    ensures r.status == NotFoundStatus ==> r.body == None
    ensures r.status == OkStatus ==> r.body == Service.GetEmployeeByID(reply) && r.body.Some?
  {
    var employee := Service.GetEmployeeByID(reply);
    if employee.Some? then Response(OkStatus, employee) else Response(NotFoundStatus, None)
  }

  /** GET /employees/highestSalary: 200 with the highest salary, 0 when the upstream failed. */
  function GetHighestSalaryOfEmployees(reply: Exchange<seq<Row>>): (r: Response<int>)
    requires Service.ListReplyWellFormed(reply) && Service.SalariesParse(Service.GetAllEmployees(reply))
    ensures r.status == OkStatus && r.body == Service.GetHighestSalaryOfEmployees(reply)
    ensures !Service.Delivers(reply) ==> r.body == 0
  {
    Response(OkStatus, Service.GetHighestSalaryOfEmployees(reply))
  }

  /** GET /employees/topTenHighestEarningEmployeeNames: 200 with at most ten names. */
  function GetTopTenHighestEarningEmployeeNames(reply: Exchange<seq<Row>>): (r: Response<seq<string>>)
    requires Service.ListReplyWellFormed(reply) && Service.ComparedSalariesParse(Service.GetAllEmployees(reply))
    ensures r.status == OkStatus && r.body == Service.GetTop10HighestEarningEmployeeNames(reply)
    ensures |r.body| <= Service.TopCount
    ensures !Service.Delivers(reply) ==> r.body == []
  {
    Response(OkStatus, Service.GetTop10HighestEarningEmployeeNames(reply))
  }

  /** POST /employee: 200 with the created record, also when it is null. */
  function CreateEmployee(reply: Exchange<Row>): (r: Response<Option<Employee>>)
    requires Service.RecordReplyWellFormed(reply)
    ensures r.status == OkStatus && r.body == Service.CreateEmployee(reply)
    ensures r.body.Some? <==> Service.Delivers(reply) && Is2xx(reply.code)
  {
    Response(OkStatus, Service.CreateEmployee(reply))
  }

  /** The message equals one of the three fixed failure messages, ignoring case. */
  predicate IsFailureMessage(message: Option<string>) {
    EqualsIgnoreCase(Service.NotFoundMessage, message)
    || EqualsIgnoreCase(Service.RateLimitMessage, message)
    || EqualsIgnoreCase(Service.FailedMessage, message)
  }

  /**
   * The three failure messages have different lengths, so no message equals
   * two of them ignoring case, and the order of the comparisons is immaterial.
   */
  lemma FailureMessagesExclusive(message: Option<string>)
    ensures !(EqualsIgnoreCase(Service.NotFoundMessage, message) && EqualsIgnoreCase(Service.RateLimitMessage, message))
    ensures !(EqualsIgnoreCase(Service.NotFoundMessage, message) && EqualsIgnoreCase(Service.FailedMessage, message))
    ensures !(EqualsIgnoreCase(Service.RateLimitMessage, message) && EqualsIgnoreCase(Service.FailedMessage, message))
  {
    if message.Some? {
      if EqualsIgnoreCase(Service.NotFoundMessage, message) {
        EqualsIgnoreCaseSameLength(Service.NotFoundMessage, message.value);
      }
      if EqualsIgnoreCase(Service.RateLimitMessage, message) {
        EqualsIgnoreCaseSameLength(Service.RateLimitMessage, message.value);
      }
    }
  }

  /**
   * The status the delete endpoint chooses for the service's message: 404,
   * 429 or 500 with the message as body when it is the matching failure
   * message, and otherwise 200 with a fixed body.
   */
  function DeleteResponse(message: Option<string>): (r: Response<Option<string>>)
    ensures r.status == NotFoundStatus <==> EqualsIgnoreCase(Service.NotFoundMessage, message)
    ensures r.status == TooManyRequestsStatus <==> EqualsIgnoreCase(Service.RateLimitMessage, message)
    ensures r.status == InternalServerErrorStatus <==> EqualsIgnoreCase(Service.FailedMessage, message)
    ensures r.status == OkStatus <==> !IsFailureMessage(message)
    ensures r.status != OkStatus ==> r.body == message
    ensures r.status == OkStatus ==> r.body == Some(DeletedBody)
  {
    FailureMessagesExclusive(message);
    if EqualsIgnoreCase(Service.NotFoundMessage, message) then Response(NotFoundStatus, message)
    else if EqualsIgnoreCase(Service.RateLimitMessage, message) then Response(TooManyRequestsStatus, message)
    else if EqualsIgnoreCase(Service.FailedMessage, message) then Response(InternalServerErrorStatus, message)
    else Response(OkStatus, Some(DeletedBody))
  }

  /**
   * DELETE /employee/{id}. Each delete outcome reaches its own status: 404
   * for a missing record, 429 for a rate limit, 500 for any other failure,
   * and 200 for a success whose message is not itself one of the failure
   * messages.
   */
  function DeleteEmployeeById(reply: Exchange<()>): (r: Response<Option<string>>)
    requires Reachable(reply)
    ensures reply.NotFound? ==> r == Response(NotFoundStatus, Some(Service.NotFoundMessage))
    ensures reply.TooManyRequests? ==> r == Response(TooManyRequestsStatus, Some(Service.RateLimitMessage))
    ensures reply.Failed? ==> r == Response(InternalServerErrorStatus, Some(Service.FailedMessage))
    ensures reply.Responded? && !(Is2xx(reply.code) && Service.IsSuccessEnvelope(reply.body)) ==>
              r == Response(InternalServerErrorStatus, Some(Service.FailedMessage))
    ensures reply.Responded? && Is2xx(reply.code) && Service.IsSuccessEnvelope(reply.body)
            && !IsFailureMessage(reply.body.value.message) ==>
              r == Response(OkStatus, Some(DeletedBody))
    ensures reply.Responded? && Is2xx(reply.code) && Service.IsSuccessEnvelope(reply.body)
            && IsFailureMessage(reply.body.value.message) ==>
              r.status != OkStatus && r.body == reply.body.value.message
    ensures r == DeleteResponse(Service.DeleteEmployeeById(reply))
  {
    var message := Service.DeleteEmployeeById(reply);
    FailureMessagesExclusive(message);
    DeleteResponse(message)
  }

  /**
   * The statuses are chosen by comparing text, so a successful delete whose
   * upstream message happens to read like a failure message is reported as
   * that failure; a success without a message is reported as a success.
   */
  lemma DeleteStatusFollowsMessageText(code: int)
    requires Is2xx(code)
    ensures DeleteEmployeeById(Responded(code, Some(Envelope(Some("success"), None, Some("Failed to delete")))))
      == Response(InternalServerErrorStatus, Some("Failed to delete"))
    ensures DeleteEmployeeById(Responded(code, Some(Envelope(Some("success"), None, None))))
      == Response(OkStatus, Some(DeletedBody))
  {
    assert Lower(Service.SuccessStatus) == Lower("success");
    FailureMessagesExclusive(Some("Failed to delete"));
  }
}
