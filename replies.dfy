/** The fixed replies of the mail server's SMTP and POP3 sides. */
module Replies {
  const OkRsp: string := "250 OK"
  const AuthOk: string := "235 User Authenticated"
  const BadArgRsp: string := "501 Bad argument"
  const BadSeqRsp: string := "503 Bad sequence of commands"
  const BadAuthRsp: string := "535 Authentication failure"
}
