/** The fixed texts the service puts on the wire and in the log, named, with their spellings. */
module Wording {
  datatype Field = NameField | EmailField | MessageField
  {
    function Text(): string {
      match this
      case NameField => "name"
      case EmailField => "email"
      case MessageField => "message"
    }
  }

  datatype Why = Required | TooLong | TooShort | NotAnAddress
  {
    function Text(): string {
      match this
      case Required => "required"
      case TooLong => "too long"
      case TooShort => "too short"
      case NotAnAddress => "not a valid address"
    }
  }

  datatype Problem =
    | MethodNotAllowed | OriginNotAllowed | TooManySubmissions | UnreadableSubmission
    | InvalidSubmission | CouldNotSend | UnknownForm
  {
    function Text(): string {
      match this
      case MethodNotAllowed => "method not allowed"
      case OriginNotAllowed => "origin not allowed"
      case TooManySubmissions => "too many submissions, try later"
      case UnreadableSubmission => "could not read submission"
      case InvalidSubmission => "invalid submission"
      case CouldNotSend => "could not send message"
      case UnknownForm => "unknown form"
    }
  }

  datatype State = Accepted | Alive
  {
    function Text(): string {
      match this
      case Accepted => "accepted"
      case Alive => "ok"
    }
  }

  datatype HeaderName = AllowOrigin | Vary | AllowMethods | AllowHeaders | MaxAge | Allow | ContentType
  {
    function Text(): string {
      match this
      case AllowOrigin => "Access-Control-Allow-Origin"
      case Vary => "Vary"
      case AllowMethods => "Access-Control-Allow-Methods"
      case AllowHeaders => "Access-Control-Allow-Headers"
      case MaxAge => "Access-Control-Max-Age"
      case Allow => "Allow"
      case ContentType => "Content-Type"
    }
  }

  datatype HeaderValue = Echo(origin: string) | OriginName | PostAndOptions | ContentTypeName | OneDay | JsonUtf8
  {
    function Text(): string {
      match this
      case Echo(origin) => origin
      case OriginName => "Origin"
      case PostAndOptions => "POST, OPTIONS"
      case ContentTypeName => "Content-Type"
      case OneDay => "86400"
      case JsonUtf8 => "application/json; charset=utf-8"
    }
  }
}
