/** The request-validation middleware: a schema check on one part of the
    request that either replaces that part by the parsed data and passes the
    request on, or answers 400 with the schema's field errors as one line of
    text. The schema check itself is foreign code, taken as an oracle. */
module ValidateMiddleware {
  import opened Wrappers
  import opened Strings
  import opened Json
  import opened Http
  import opened Express

  /** One value of `flatten().fieldErrors`: normally the list of messages for
      the field, but anything else is rendered with `String` as it is. */
  datatype ErrorValue = Messages(messages: seq<string>) | Scalar(text: string)

  /** `flatten().fieldErrors` as `Object.entries` lists it, in order. */
  type FieldErrors = seq<(string, ErrorValue)>

  /** What `schema.safeParse(data)` returns. */
  datatype SafeParse = Parsed(data: Json) | Rejected(fieldErrors: FieldErrors)

  type Schema = Json -> SafeParse

  /** `target` defaults to the request body. */
  function TargetOf(target: Option<Target>): (t: Target)
    ensures target.None? ==> t == Body
    ensures target.Some? ==> t == target.value
  {
    target.GetOr(Body)
  }

  /** `${Array.isArray(v) ? v.join(", ") : v}` */
  function RenderValue(v: ErrorValue): string {
    match v
    case Messages(ms) => Join(ms, ", ")
    case Scalar(text) => text
  }

  /** `${k}: ${...}` */
  function FieldLine(e: (string, ErrorValue)): (line: string)
    ensures StartsWith(line, e.0 + ": ")
    ensures line[|e.0| + 2..] == RenderValue(e.1)
  {
    e.0 + ": " + RenderValue(e.1)
  }

  function FieldLines(errors: FieldErrors): (r: seq<string>)
    ensures |r| == |errors|
    ensures forall k | 0 <= k < |errors| :: r[k] == FieldLine(errors[k])
  {
    if |errors| == 0 then [] else [FieldLine(errors[0])] + FieldLines(errors[1..])
  }

  /** The failure message: one `k: e1, e2` part per field, joined by `; `;
      it is empty only when there are no errors, and starts with the first
      field's part. */
  function FormatFieldErrors(errors: FieldErrors): (r: string)
    ensures errors == [] ==> r == ""
    ensures errors != [] ==> StartsWith(r, FieldLine(errors[0])) && |r| >= |errors[0].0| + 2
    ensures |errors| == 1 ==> r == FieldLine(errors[0])
  {
    Join(FieldLines(errors), "; ")
  }

  /** The message names every field with its messages: the part for field
      `k` is present. `FormatFieldErrorsAppend` gives the order and the
      separators. */
  lemma FormatMentionsEveryField(errors: FieldErrors, k: nat)
    requires k < |errors|
    ensures Contains(FormatFieldErrors(errors), FieldLine(errors[k]))
  {
    JoinContains(FieldLines(errors), "; ", k);
  }

  /** Two lists of field errors give their two messages with one `; `
      between them: with the one-field case, the message is every field's
      part, in order, separated by `; `. */
  lemma FormatFieldErrorsAppend(xs: FieldErrors, ys: FieldErrors)
    requires xs != [] && ys != []
    ensures FormatFieldErrors(xs + ys) == FormatFieldErrors(xs) + "; " + FormatFieldErrors(ys)
  {
    var all, a, b := FieldLines(xs + ys), FieldLines(xs), FieldLines(ys);
    assert |all| == |a + b|;
    forall k | 0 <= k < |all|
      ensures all[k] == (a + b)[k]
    {
      if k < |xs| {
        assert (xs + ys)[k] == xs[k];
      } else {
        assert (xs + ys)[k] == ys[k - |xs|];
      }
    }
    assert all == a + b;
    JoinAppend(a, b, "; ");
  }

  /** The first field's part comes first, then `; ` and the rest. */
  lemma FormatFieldErrorsCons(e: (string, ErrorValue), rest: FieldErrors)
    requires rest != []
    ensures FormatFieldErrors([e] + rest) == FieldLine(e) + "; " + FormatFieldErrors(rest)
  {
    FormatFieldErrorsAppend([e], rest);
  }

  /** A single failing field gives exactly its own part, with no separator. */
  lemma SingleFieldMessage(field: string, messages: seq<string>)
    ensures FormatFieldErrors([(field, Messages(messages))]) == field + ": " + Join(messages, ", ")
  {
  }

  /** The middleware's effect: on success the target part of the request is
      replaced by the parsed data and `next` is called once; on failure
      nothing of the request changes, `next` is not called, and the answer
      is 400 with the formatted field errors. */
  method Validate(req: Request, schema: Schema, target: Option<Target>)
    modifies req
    ensures var t := TargetOf(target);
      schema(old(req.Get(t))).Parsed? ==>
        && req.Get(t) == schema(old(req.Get(t))).data
        && (forall u | u != t :: req.Get(u) == old(req.Get(u)))
        && req.nextCalls == old(req.nextCalls) + 1
        && req.sent == old(req.sent)
    ensures var t := TargetOf(target);
      schema(old(req.Get(t))).Rejected? ==>
        && (forall u :: req.Get(u) == old(req.Get(u)))
        && req.nextCalls == old(req.nextCalls)
        && req.sent == Some(Failure(BadRequest, FormatFieldErrors(schema(old(req.Get(t))).fieldErrors)))
    ensures var t := TargetOf(target);
      t == Headers && schema(old(req.Get(t))).Parsed? ==>
        req.Authorization() == AuthorizationOf(schema(old(req.Get(t))).data)
    ensures var t := TargetOf(target);
      t != Headers || schema(old(req.Get(t))).Rejected? ==>
        req.Authorization() == old(req.Authorization())
    ensures req.userId == old(req.userId)
    ensures req.tokenPayload == old(req.tokenPayload)
  {
    var t := TargetOf(target);
    var data := req.Get(t);
    var result := schema(data);
    if result.Parsed? {
      req.Set(t, result.data);
      req.Next();
    } else {
      var message := FormatFieldErrors(result.fieldErrors);
      req.SendError(message, BadRequest);
    }
  }
}
