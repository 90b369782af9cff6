/**
 * One record of `chatHistory` in script.js: who spoke, the content as it was
 * received (the user's trimmed text, or the `response` value of the server's
 * reply, which need not be a string), and when. The time is kept as the text
 * `toLocaleString("vi-VN")` gives for it, since only that text is ever used.
 */
module History {
  import opened Json

  datatype Role = User | Bot

  datatype Entry = Entry(role: Role, content: Json, stamp: string)
}
