/** The error a tRPC procedure throws (`new TRPCError({ code, message })`).
    An error thrown without a message carries the code's name as its
    message. Any other exception reaches the client as INTERNAL_SERVER_ERROR. */
module Trpc {

  datatype ErrorCode = FORBIDDEN | NOT_FOUND | BAD_REQUEST | INTERNAL_SERVER_ERROR

  datatype TrpcError = TrpcError(code: ErrorCode, message: string)
}
